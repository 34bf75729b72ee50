/** Every run of the proposal runtime: many clients' calls in any interleaving. */
module RuntimeRuns {
  import opened Identities
  import opened Runtime

  datatype Call =
    | Propose(doc: Intent, actor: string, candidates: seq<nat>)
    | Validate(id: nat, loadFails: bool)
    | CommitCall(id: nat, token: Fence, storeFails: bool)
    | Cancel(id: nat, text: string)
    | Subscribe
    | Unsubscribe(subscription: nat)
    | Poll(subscription: nat)
    | Shutdown

  function Step(env: Env, o: Options, s: State, call: Call): (State, Reply) {
    match call
    case Propose(doc, actor, candidates) => ProposeStep(env, o, s, doc, actor, candidates)
    case Validate(id, loadFails) => ValidateStep(env, s, id, loadFails)
    case CommitCall(id, token, storeFails) => CommitStep(env, o, s, id, token, storeFails)
    case Cancel(id, text) => CancelStep(s, id, text)
    case Subscribe => SubscribeStep(o, s)
    case Unsubscribe(id) => UnsubscribeStep(s, id)
    case Poll(id) => PollStep(s, id)
    case Shutdown => (s.(shuttingDown := true), Done)
  }

  /** The state after the calls, in order. */
  function Run(env: Env, o: Options, s: State, calls: seq<Call>): State {
    if calls == [] then s else Step(env, o, Run(env, o, s, calls[..|calls| - 1]), calls[|calls| - 1]).0
  }

  /** The reply to the k-th call. */
  function ReplyAt(env: Env, o: Options, s: State, calls: seq<Call>, k: nat): Reply
    requires k < |calls|
  {
    Step(env, o, Run(env, o, s, calls[..k]), calls[k]).1
  }

  lemma RunStep(env: Env, o: Options, s: State, calls: seq<Call>, k: nat)
    requires k < |calls|
    ensures Run(env, o, s, calls[..k + 1]) == Step(env, o, Run(env, o, s, calls[..k]), calls[k]).0
  {
    assert calls[..k + 1][..k] == calls[..k];
  }

  /** Normalizing a canonical document changes nothing. */
  ghost predicate Idempotent(env: Env) {
    forall d :: env.canonical(d).Some? ==> env.canonical(env.canonical(d).value) == env.canonical(d)
  }

  // ----- the invariant ----------------------------------------------------------

  /** The identity index is a bijection onto the slots of the table. */
  ghost predicate IndexOk(proposals: seq<Proposal>, index: map<nat, nat>) {
    && (forall id :: id in index ==> index[id] < |proposals| && proposals[index[id]].id == id)
    && (forall i :: 0 <= i < |proposals| ==> proposals[i].id in index && index[proposals[i].id] == i)
  }

  ghost predicate ProposalOk(env: Env, s: State, p: Proposal) {
    && p.base <= s.Head() && p.epoch == s.epoch && p.incarnation == s.incarnation
    && (env.canonical(p.intent) == Some(p.intent) || env.canonical(p.intent) == None)
    && (p.state.Validated? ==> env.passes(p.intent) && p.diff == env.diff(s.BaseDoc(env, p.base, p.intent), p.intent))
    && (p.state.Committed? ==> p.base < s.Head())
    && (p.state.Rejected? ==> Stuck(env, s, p))
  }

  /** What stands against p ever being committed: it cannot be canonicalized, its base is superseded, or it is invalid. */
  predicate Stuck(env: Env, s: State, p: Proposal) {
    env.canonical(p.intent) == None || p.base < s.Head() || !env.passes(p.intent)
  }

  ghost predicate Inv(env: Env, o: Options, s: State) {
    && IndexOk(s.proposals, s.index)
    && |s.proposals| <= o.maxPending
    && (forall i :: 0 <= i < |s.proposals| ==> ProposalOk(env, s, s.proposals[i]))
  }

  // ----- eviction -------------------------------------------------------------------

  ghost predicate DistinctIds(proposals: seq<Proposal>) {
    forall i, j :: 0 <= i < j < |proposals| ==> proposals[i].id != proposals[j].id
  }

  lemma {:induction false} LiveOnlyDistinct(proposals: seq<Proposal>)
    requires DistinctIds(proposals)
    ensures DistinctIds(LiveOnly(proposals))
  {
    if proposals != [] {
      var m := |proposals| - 1;
      var rest := LiveOnly(proposals[..m]);
      LiveOnlyDistinct(proposals[..m]);
      forall i | 0 <= i < |rest|
        ensures rest[i].id != proposals[m].id
      {
        assert rest[i] in proposals[..m];
        var j :| 0 <= j < m && proposals[j] == rest[i];
      }
    }
  }

  lemma {:induction false} IndexOfOk(proposals: seq<Proposal>)
    requires DistinctIds(proposals)
    ensures IndexOk(proposals, IndexOf(proposals))
  {
    if proposals != [] {
      var m := |proposals| - 1;
      IndexOfOk(proposals[..m]);
      var earlier := IndexOf(proposals[..m]);
      assert proposals[m].id !in earlier;
      forall i | 0 <= i < |proposals|
        ensures proposals[i].id in IndexOf(proposals) && IndexOf(proposals)[proposals[i].id] == i
      {
        if i < m { assert proposals[..m][i] == proposals[i]; }
      }
    }
  }

  /** Eviction retires only terminal proposals, and every live one keeps its identity. */
  lemma EvictedOk(env: Env, o: Options, s: State)
    requires Inv(env, o, s) && Evicted(o, s).Some?
    ensures var t := Evicted(o, s).value;
      && Inv(env, o, t) && |t.proposals| < o.maxPending
      && t == s.(proposals := t.proposals, index := t.index)
      && (forall p :: p in s.proposals && !p.Terminal() ==> p in t.proposals)
      && (forall p :: p in t.proposals ==> p in s.proposals)
  {
    if |s.proposals| >= o.maxPending {
      forall i, j | 0 <= i < j < |s.proposals|
        ensures s.proposals[i].id != s.proposals[j].id
      {
        assert s.index[s.proposals[i].id] == i && s.index[s.proposals[j].id] == j;
      }
      LiveOnlyDistinct(s.proposals);
      IndexOfOk(LiveOnly(s.proposals));
      var t := Evicted(o, s).value;
      forall i | 0 <= i < |t.proposals|
        ensures ProposalOk(env, t, t.proposals[i])
      {
        assert t.proposals[i] in s.proposals;
        var j :| 0 <= j < |s.proposals| && s.proposals[j] == t.proposals[i];
        assert ProposalOk(env, s, s.proposals[j]);
      }
    }
  }

  // ----- every call keeps the invariant -----------------------------------------------

  /** Replacing one proposal by a sound one with the same identity. */
  lemma PutOk(env: Env, o: Options, s: State, i: nat, p: Proposal)
    requires Inv(env, o, s) && i < |s.proposals| && p.id == s.proposals[i].id && ProposalOk(env, s, p)
    ensures Inv(env, o, Put(s, i, p))
  {
    var t := Put(s, i, p);
    forall j | 0 <= j < |t.proposals|
      ensures ProposalOk(env, t, t.proposals[j])
    {
      assert j != i ==> ProposalOk(env, s, s.proposals[j]);
    }
  }

  lemma ProposeOk(env: Env, o: Options, s: State, doc: Intent, actor: string, candidates: seq<nat>)
    requires Idempotent(env) && Inv(env, o, s)
    ensures Inv(env, o, ProposeStep(env, o, s, doc, actor, candidates).0)
  {
    hide LiveOnly, IndexOf, NewProposal, Evicted;
    if Evicted(o, s).Some? {
      EvictedOk(env, o, s);
      var t := Evicted(o, s).value;
      var id := FirstFree(t.index, candidates);
      if id.Some? {
        var p := NewProposal(env, t, id.value, doc, actor);
        NewOk(env, t, id.value, doc, actor);
        var u := t.(proposals := t.proposals + [p], index := t.index[id.value := |t.proposals|]);
        forall i | 0 <= i < |u.proposals|
          ensures ProposalOk(env, u, u.proposals[i])
        {
          if i < |t.proposals| {
            assert ProposalOk(env, t, t.proposals[i]);
          }
        }
      }
    }
  }

  lemma NewOk(env: Env, s: State, id: nat, doc: Intent, actor: string)
    requires Idempotent(env)
    ensures NewProposal(env, s, id, doc, actor).id == id && ProposalOk(env, s, NewProposal(env, s, id, doc, actor))
  {
  }

  lemma ValidateOk(env: Env, o: Options, s: State, id: nat, loadFails: bool)
    requires Inv(env, o, s)
    ensures Inv(env, o, ValidateStep(env, s, id, loadFails).0)
  {
    var slot := Slot(s, id);
    if slot.Some? {
      var i := slot.value;
      var p := s.proposals[i];
      assert ProposalOk(env, s, p);
      var t := ValidateStep(env, s, id, loadFails).0;
      if t != s {
        assert t == Put(s, i, t.proposals[i]);
        PutOk(env, o, s, i, t.proposals[i]);
      }
    }
  }

  /** Storing one more document keeps what is known of every proposal. */
  lemma GrowOk(env: Env, o: Options, s: State, doc: Intent)
    requires Inv(env, o, s)
    ensures Inv(env, o, s.(documents := s.documents + [doc]))
  {
    var t := s.(documents := s.documents + [doc]);
    forall i | 0 <= i < |t.proposals|
      ensures ProposalOk(env, t, t.proposals[i])
    {
      assert ProposalOk(env, s, s.proposals[i]);
    }
  }

  lemma CommitOk(env: Env, o: Options, s: State, id: nat, token: Fence, storeFails: bool)
    requires Inv(env, o, s)
    ensures Inv(env, o, CommitStep(env, o, s, id, token, storeFails).0)
  {
    var slot := Slot(s, id);
    if slot.Some? {
      var i := slot.value;
      var p := s.proposals[i];
      assert ProposalOk(env, s, p);
      var r := CommitStep(env, o, s, id, token, storeFails);
      if r.1.Outcome? {
        var doc := env.canonical(p.intent).value;
        GrowOk(env, o, s, doc);
        var grown := s.(documents := s.documents + [doc]);
        PutOk(env, o, grown, i, p.(state := Committed));
        SubscribersIrrelevant(env, o, Put(grown, i, p.(state := Committed)), r.0);
      } else if r.0 != s {
        PutOk(env, o, s, i, r.0.proposals[i]);
      }
    }
  }

  lemma SubscribersIrrelevant(env: Env, o: Options, s: State, t: State)
    requires Inv(env, o, s)
    requires t.proposals == s.proposals && t.index == s.index && t.documents == s.documents
    requires t.epoch == s.epoch && t.incarnation == s.incarnation
    ensures Inv(env, o, t)
  {
    forall i | 0 <= i < |t.proposals|
      ensures ProposalOk(env, t, t.proposals[i])
    {
      assert ProposalOk(env, s, s.proposals[i]);
    }
  }

  lemma CancelOk(env: Env, o: Options, s: State, id: nat, text: string)
    requires Inv(env, o, s)
    ensures Inv(env, o, CancelStep(s, id, text).0)
  {
    var slot := Slot(s, id);
    if slot.Some? {
      assert ProposalOk(env, s, s.proposals[slot.value]);
      var t := CancelStep(s, id, text).0;
      if t != s {
        PutOk(env, o, s, slot.value, t.proposals[slot.value]);
      }
    }
  }

  lemma StepOk(env: Env, o: Options, s: State, call: Call)
    requires Idempotent(env) && Inv(env, o, s)
    ensures Inv(env, o, Step(env, o, s, call).0)
  {
    match call
    case Propose(doc, actor, candidates) => ProposeOk(env, o, s, doc, actor, candidates);
    case Validate(id, loadFails) => ValidateOk(env, o, s, id, loadFails);
    case CommitCall(id, token, storeFails) => CommitOk(env, o, s, id, token, storeFails);
    case Cancel(id, text) => CancelOk(env, o, s, id, text);
    case _ => SubscribersIrrelevant(env, o, s, Step(env, o, s, call).0);
  }

  /** In every run the index stays a bijection, the table stays bounded and every proposal stays sound. */
  lemma {:induction false} RunOk(env: Env, o: Options, s: State, calls: seq<Call>)
    requires Idempotent(env) && Inv(env, o, s)
    ensures Inv(env, o, Run(env, o, s, calls))
  {
    if calls != [] {
      RunOk(env, o, s, calls[..|calls| - 1]);
      StepOk(env, o, Run(env, o, s, calls[..|calls| - 1]), calls[|calls| - 1]);
    }
  }

  lemma StartOk(env: Env, o: Options, s: State)
    requires s.proposals == [] && s.index == map[]
    ensures Inv(env, o, s)
  {
  }

  // ----- no lost update -------------------------------------------------------------

  /** A successful commit appends exactly one document, on the generation its proposal was made and compared against. */
  lemma CommitAdvances(env: Env, o: Options, s: State, id: nat, token: Fence, storeFails: bool)
    requires Inv(env, o, s)
    requires CommitStep(env, o, s, id, token, storeFails).1.Outcome?
    ensures id in s.index
    ensures var (t, r) := CommitStep(env, o, s, id, token, storeFails); var p := s.proposals[s.index[id]];
      && t.Head() == s.Head() + 1 == r.generation
      && p.base == s.Head() && p.state.Validated? && token.generation == s.Head() && token.writer == p.actor
      && t.documents == s.documents + [p.intent]
      && r.diff == env.diff(s.BaseDoc(env, s.Head(), p.intent), t.documents[s.Head()])
      && t.proposals[s.index[id]] == p.(state := Committed)
  {
    var p := s.proposals[s.index[id]];
    assert ProposalOk(env, s, p);
  }

  /** Only a successful commit changes the stored documents, and then only by appending one. */
  lemma DocumentsGrow(env: Env, o: Options, s: State, call: Call)
    requires Idempotent(env) && Inv(env, o, s)
    ensures var (t, r) := Step(env, o, s, call);
      && s.documents <= t.documents
      && t.Head() == s.Head() + (if r.Outcome? then 1 else 0)
      && (r.Outcome? ==> r.generation == t.Head())
  {
    if call.Propose? && Evicted(o, s).Some? {
      EvictedOk(env, o, s);
    }
  }

  /** The number of successful commits among the first k calls. */
  function Successes(env: Env, o: Options, s: State, calls: seq<Call>, k: nat): nat
    requires k <= |calls|
  {
    if k == 0 then 0
    else Successes(env, o, s, calls, k - 1) + (if ReplyAt(env, o, s, calls, k - 1).Outcome? then 1 else 0)
  }

  lemma {:induction false} HeadCountsSuccesses(env: Env, o: Options, s: State, calls: seq<Call>, i: nat, k: nat)
    requires Idempotent(env) && Inv(env, o, s) && i <= k <= |calls|
    ensures Run(env, o, s, calls[..k]).Head() == s.Head() + Successes(env, o, s, calls, k)
    ensures Run(env, o, s, calls[..i]).documents <= Run(env, o, s, calls[..k]).documents
    decreases k
  {
    hide Inv, Idempotent, Step;
    if k > 0 {
      HeadCountsSuccesses(env, o, s, calls, if i < k then i else k - 1, k - 1);
      RunStep(env, o, s, calls, k - 1);
      RunOk(env, o, s, calls[..k - 1]);
      DocumentsGrow(env, o, Run(env, o, s, calls[..k - 1]), calls[k - 1]);
    }
  }

  /** The proposal a successful commit call turned into a generation, as it was just before. */
  function CommittedProposal(env: Env, o: Options, s: State, calls: seq<Call>, k: nat): Option<Proposal>
    requires k < |calls|
  {
    var t := Run(env, o, s, calls[..k]);
    if calls[k].CommitCall? && Slot(t, calls[k].id).Some? then Some(t.proposals[Slot(t, calls[k].id).value]) else None
  }

  /**
   * No lost update. In every run, two successful commits were made against different base generations,
   * each installed the successor of its own base, and each returned the difference between the stored
   * document of that base and the document it stored, as both read back at the end of the run.
   */
  lemma NoLostUpdate(env: Env, o: Options, s: State, calls: seq<Call>, i: nat, j: nat)
    requires Idempotent(env) && Inv(env, o, s) && i < j < |calls|
    requires ReplyAt(env, o, s, calls, i).Outcome? && ReplyAt(env, o, s, calls, j).Outcome?
    ensures CommittedProposal(env, o, s, calls, i).Some? && CommittedProposal(env, o, s, calls, j).Some?
    ensures var p, q := CommittedProposal(env, o, s, calls, i).value, CommittedProposal(env, o, s, calls, j).value;
      && p.base < q.base
      && ReplyAt(env, o, s, calls, i).generation == p.base + 1
      && ReplyAt(env, o, s, calls, j).generation == q.base + 1
    ensures ReadsBack(env, o, s, calls, i) && ReadsBack(env, o, s, calls, j)
  {
    hide Inv, Idempotent, Step, Run;
    SuccessFacts(env, o, s, calls, i);
    SuccessFacts(env, o, s, calls, j);
    HeadCountsSuccesses(env, o, s, calls, i + 1, j);
    SuccessReadsBack(env, o, s, calls, i);
    SuccessReadsBack(env, o, s, calls, j);
  }

  /** At the end of the run the document committed by call k is stored, and the diff returned was that from its base. */
  ghost predicate ReadsBack(env: Env, o: Options, s: State, calls: seq<Call>, k: nat)
    requires k < |calls| && ReplyAt(env, o, s, calls, k).Outcome? && CommittedProposal(env, o, s, calls, k).Some?
  {
    var t := Run(env, o, s, calls); var p := CommittedProposal(env, o, s, calls, k).value;
    && p.base < t.Head() && t.documents[p.base] == p.intent
    && ReplyAt(env, o, s, calls, k).diff == env.diff(t.BaseDoc(env, p.base, p.intent), t.documents[p.base])
  }

  lemma SuccessReadsBack(env: Env, o: Options, s: State, calls: seq<Call>, k: nat)
    requires Idempotent(env) && Inv(env, o, s) && k < |calls| && ReplyAt(env, o, s, calls, k).Outcome?
    ensures CommittedProposal(env, o, s, calls, k).Some? && ReadsBack(env, o, s, calls, k)
  {
    hide Inv, Idempotent, Step, Run;
    SuccessFacts(env, o, s, calls, k);
    HeadCountsSuccesses(env, o, s, calls, k + 1, |calls|);
    HeadCountsSuccesses(env, o, s, calls, k, |calls|);
    assert calls[..|calls|] == calls;
  }

  lemma SuccessFacts(env: Env, o: Options, s: State, calls: seq<Call>, k: nat)
    requires Idempotent(env) && Inv(env, o, s) && k < |calls| && ReplyAt(env, o, s, calls, k).Outcome?
    ensures CommittedProposal(env, o, s, calls, k).Some?
    ensures var p := CommittedProposal(env, o, s, calls, k).value;
      var t, u := Run(env, o, s, calls[..k]), Run(env, o, s, calls[..k + 1]);
      var r := ReplyAt(env, o, s, calls, k);
      && p.base == t.Head() && r.generation == p.base + 1 && u.documents == t.documents + [p.intent]
      && r.diff == env.diff(t.BaseDoc(env, p.base, p.intent), p.intent)
  {
    hide Inv, Idempotent, Step, Run, CommitStep;
    RunOk(env, o, s, calls[..k]);
    RunStep(env, o, s, calls, k);
    var t := Run(env, o, s, calls[..k]);
    OnlyCommitsSucceed(env, o, t, calls[k]);
    CommitAdvances(env, o, t, calls[k].id, calls[k].token, calls[k].storeFails);
    IndexPoints(env, o, t, calls[k].id);
  }

  lemma OnlyCommitsSucceed(env: Env, o: Options, s: State, call: Call)
    requires Step(env, o, s, call).1.Outcome?
    ensures call.CommitCall? && Step(env, o, s, call) == CommitStep(env, o, s, call.id, call.token, call.storeFails)
  {
  }

  lemma IndexPoints(env: Env, o: Options, s: State, id: nat)
    requires Inv(env, o, s) && id in s.index
    ensures Slot(s, id) == Some(s.index[id])
  {
  }

  // ----- the life of a proposal -------------------------------------------------------

  /** No live proposal disappears, and one call can only touch the proposal it names. */
  lemma LiveSurvives(env: Env, o: Options, s: State, call: Call, i: nat)
    requires Idempotent(env) && Inv(env, o, s) && i < |s.proposals| && !s.proposals[i].Terminal()
    ensures var t := Step(env, o, s, call).0; var p := s.proposals[i];
      && p.id in t.index && t.index[p.id] < |t.proposals|
      && t.proposals[t.index[p.id]].id == p.id
      && (t.proposals[t.index[p.id]] == p
          || (call.Validate? && call.id == p.id) || (call.CommitCall? && call.id == p.id) || (call.Cancel? && call.id == p.id))
  {
    var p := s.proposals[i];
    hide ProposalOk, Idempotent, Evicted, EnqueueAll, Published, ProposeStep, SubscribeStep, UnsubscribeStep, PollStep;
    if call.Propose? {
      LiveSurvivesPropose(env, o, s, call, i);
    } else if call.Subscribe? || call.Unsubscribe? || call.Poll? {
      ProposalsApart(env, o, s, call);
      assert s.index[p.id] == i;
    } else {
      assert s.index[p.id] == i;
      assert Step(env, o, s, call).0.index == s.index;
    }
  }

  lemma LiveSurvivesPropose(env: Env, o: Options, s: State, call: Call, i: nat)
    requires Idempotent(env) && Inv(env, o, s) && i < |s.proposals| && !s.proposals[i].Terminal() && call.Propose?
    ensures var t := Step(env, o, s, call).0; var p := s.proposals[i];
      p.id in t.index && t.index[p.id] < |t.proposals| && t.proposals[t.index[p.id]] == p
  {
    hide ProposalOk, LiveOnly, IndexOf, NewProposal;
    if Evicted(o, s).Some? {
      EvictedOk(env, o, s);
      hide Evicted;
      var e, p := Evicted(o, s).value, s.proposals[i];
      assert p in e.proposals;
      var j :| 0 <= j < |e.proposals| && e.proposals[j] == p;
      assert e.index[p.id] == j;
    }
  }

  /** The proposal with identity id, if it is still in the table, is in the given state. */
  ghost predicate InState(s: State, id: nat, state: ProposalState) {
    id in s.index && s.index[id] < |s.proposals| ==> s.proposals[s.index[id]].state == state
  }

  /** After a propose call an identity that was not drawn still belongs to the same proposal. */
  lemma ProposeKeeps(env: Env, o: Options, s: State, call: Call, id: nat)
    requires Idempotent(env) && Inv(env, o, s) && call.Propose?
    requires Step(env, o, s, call).1 != Reply.Created(id)
    ensures var t := Step(env, o, s, call).0;
      id in t.index ==> t.index[id] < |t.proposals| && id in s.index && t.proposals[t.index[id]] == s.proposals[s.index[id]]
  {
    StepOk(env, o, s, call);
    if Evicted(o, s).Some? {
      EvictedOk(env, o, s);
      var e := Evicted(o, s).value;
      var t := Step(env, o, s, call).0;
      var drawn := FirstFree(e.index, call.candidates);
      assert t == s || t == e || (drawn.Some? && drawn.value != id && t.index == e.index[drawn.value := |e.proposals|]);
      if id in t.index {
        assert t == s || (id in e.index && t.proposals[t.index[id]] == e.proposals[e.index[id]]);
        if t != s {
          var p := e.proposals[e.index[id]];
          assert p in s.proposals;
          var j :| 0 <= j < |s.proposals| && s.proposals[j] == p;
        }
      }
    }
  }

  /** Subscribing, unsubscribing and polling leave proposals and documents alone. */
  lemma ProposalsApart(env: Env, o: Options, s: State, call: Call)
    requires call.Subscribe? || call.Unsubscribe? || call.Poll?
    ensures var t := Step(env, o, s, call).0;
      t.proposals == s.proposals && t.index == s.index && t.documents == s.documents
  {
  }

  /** Committed and Cancelled are terminal: no call changes them. */
  lemma TerminalStep(env: Env, o: Options, s: State, call: Call, id: nat, state: ProposalState)
    requires Idempotent(env) && Inv(env, o, s) && (state.Committed? || state.Cancelled?) && InState(s, id, state)
    requires Step(env, o, s, call).1 != Reply.Created(id)
    ensures InState(Step(env, o, s, call).0, id, state)
    ensures call.CommitCall? && call.id == id ==> Step(env, o, s, call).1.Refused?
  {
    hide ProposeStep, ProposalOk, Idempotent, EnqueueAll, SubscribeStep, UnsubscribeStep, PollStep;
    if call.Propose? {
      ProposeKeeps(env, o, s, call, id);
    } else if call.Subscribe? || call.Unsubscribe? || call.Poll? {
      ProposalsApart(env, o, s, call);
    }
  }

  /** The identity is not drawn again during the run. */
  ghost predicate NotReissued(env: Env, o: Options, s: State, calls: seq<Call>, id: nat) {
    forall k :: 0 <= k < |calls| ==> ReplyAt(env, o, s, calls, k) != Reply.Created(id)
  }

  lemma NotReissuedPrefix(env: Env, o: Options, s: State, calls: seq<Call>, id: nat)
    requires calls != [] && NotReissued(env, o, s, calls, id)
    ensures NotReissued(env, o, s, calls[..|calls| - 1], id)
    ensures Step(env, o, Run(env, o, s, calls[..|calls| - 1]), calls[|calls| - 1]).1 != Reply.Created(id)
  {
    var before := calls[..|calls| - 1];
    forall k | 0 <= k < |before|
      ensures ReplyAt(env, o, s, before, k) != Reply.Created(id)
    {
      assert before[..k] == calls[..k];
      assert ReplyAt(env, o, s, calls, k) != Reply.Created(id);
    }
    assert ReplyAt(env, o, s, calls, |calls| - 1) != Reply.Created(id);
  }

  lemma {:induction false} TerminalForever(env: Env, o: Options, s: State, calls: seq<Call>, id: nat, state: ProposalState)
    requires Idempotent(env) && Inv(env, o, s) && (state.Committed? || state.Cancelled?) && InState(s, id, state)
    requires NotReissued(env, o, s, calls, id)
    ensures InState(Run(env, o, s, calls), id, state)
  {
    if calls != [] {
      NotReissuedPrefix(env, o, s, calls, id);
      TerminalForever(env, o, s, calls[..|calls| - 1], id, state);
      RunOk(env, o, s, calls[..|calls| - 1]);
      TerminalStep(env, o, Run(env, o, s, calls[..|calls| - 1]), calls[|calls| - 1], id, state);
    }
  }

  /** The proposal is beyond committing, whatever state revalidation puts it in. */
  ghost predicate Doomed(env: Env, s: State, id: nat) {
    id in s.index && s.index[id] < |s.proposals| ==>
      var p := s.proposals[s.index[id]];
      !p.state.Committed? && !p.state.Proposed? && Stuck(env, s, p)
  }

  lemma DoomedStep(env: Env, o: Options, s: State, call: Call, id: nat)
    requires Idempotent(env) && Inv(env, o, s) && Doomed(env, s, id)
    requires Step(env, o, s, call).1 != Reply.Created(id)
    ensures Doomed(env, Step(env, o, s, call).0, id)
    ensures call.CommitCall? && call.id == id ==> Step(env, o, s, call).1.Refused?
  {
    hide Idempotent, Evicted, ProposeStep, EnqueueAll, SubscribeStep, UnsubscribeStep, PollStep;
    if call.Propose? {
      ProposeKeeps(env, o, s, call, id);
      DocumentsGrow(env, o, s, call);
    } else if call.Subscribe? || call.Unsubscribe? || call.Poll? {
      ProposalsApart(env, o, s, call);
    } else if id in s.index {
      var p := s.proposals[s.index[id]];
      assert ProposalOk(env, s, p);
      if call.CommitCall? {
        DoomedCommit(env, o, s, call.id, call.token, call.storeFails, id);
      }
    }
  }

  lemma DoomedCommit(env: Env, o: Options, s: State, target: nat, token: Fence, storeFails: bool, id: nat)
    requires Inv(env, o, s) && Doomed(env, s, id) && id in s.index
    ensures Doomed(env, CommitStep(env, o, s, target, token, storeFails).0, id)
    ensures target == id ==> CommitStep(env, o, s, target, token, storeFails).1.Refused?
  {
    var p := s.proposals[s.index[id]];
    assert ProposalOk(env, s, p);
    if target in s.index {
      assert target != id ==> s.index[target] != s.index[id];
    }
  }

  lemma {:induction false} DoomedForever(env: Env, o: Options, s: State, calls: seq<Call>, id: nat)
    requires Idempotent(env) && Inv(env, o, s) && Doomed(env, s, id) && NotReissued(env, o, s, calls, id)
    ensures Doomed(env, Run(env, o, s, calls), id)
  {
    if calls != [] {
      NotReissuedPrefix(env, o, s, calls, id);
      DoomedForever(env, o, s, calls[..|calls| - 1], id);
      RunOk(env, o, s, calls[..|calls| - 1]);
      DoomedStep(env, o, Run(env, o, s, calls[..|calls| - 1]), calls[|calls| - 1], id);
    }
  }

  /** Once rejected, never committed: not even after being validated again. */
  lemma RejectedNeverCommits(env: Env, o: Options, s: State, calls: seq<Call>, id: nat, k: nat)
    requires Idempotent(env) && Inv(env, o, s) && id in s.index && s.proposals[s.index[id]].state.Rejected?
    requires NotReissued(env, o, s, calls, id) && k < |calls| && calls[k].CommitCall? && calls[k].id == id
    ensures ReplyAt(env, o, s, calls, k).Refused?
  {
    assert ProposalOk(env, s, s.proposals[s.index[id]]);
    var before := calls[..k];
    forall i | 0 <= i < |before|
      ensures ReplyAt(env, o, s, before, i) != Reply.Created(id)
    {
      assert before[..i] == calls[..i];
      assert ReplyAt(env, o, s, calls, i) != Reply.Created(id);
    }
    DoomedForever(env, o, s, before, id);
    RunOk(env, o, s, before);
    assert ReplyAt(env, o, s, calls, k) != Reply.Created(id);
    DoomedStep(env, o, Run(env, o, s, before), calls[k], id);
  }
}
