/** What each subscriber of the runtime is sent, over every run (src/runtime.cpp:550-629). */
module Subscriptions {
  import opened Identities
  import opened Runtime
  import opened RuntimeRuns

  /** Everything ever queued for one subscriber, and everything it has polled, in order. */
  datatype Log = Log(enqueued: seq<Publication>, delivered: seq<Publication>)

  function LogPublication(logs: seq<Log>, p: Publication): (r: seq<Log>)
    ensures |r| == |logs| && forall i :: 0 <= i < |logs| ==> r[i] == logs[i].(enqueued := logs[i].enqueued + [p])
  {
    seq(|logs|, i requires 0 <= i < |logs| => logs[i].(enqueued := logs[i].enqueued + [p]))
  }

  /** The logs after a call: a bystander's record of the call and its reply. */
  function Track(env: Env, o: Options, s: State, logs: seq<Log>, call: Call): seq<Log>
    requires |logs| == |s.subscribers|
  {
    match call
    case Subscribe =>
      var (t, reply) := SubscribeStep(o, s);
      if reply.Subscribed? then logs + [Log(t.subscribers[|s.subscribers|].queue, [])] else logs
    case CommitCall(id, token, storeFails) =>
      var (t, reply) := CommitStep(env, o, s, id, token, storeFails);
      if reply.Outcome? && o.publishOnCommit then
        LogPublication(logs, Publication(reply.generation, t.publicationSequence, 0))
      else logs
    case Poll(id) =>
      var k := SubscriberAt(s.subscribers, id);
      if k < |s.subscribers| && s.subscribers[k].queue != [] then
        logs[k := logs[k].(delivered := logs[k].delivered + [s.subscribers[k].queue[0]])]
      else logs
    case Unsubscribe(id) =>
      var k := SubscriberAt(s.subscribers, id);
      if k < |s.subscribers| then logs[..k] + logs[k + 1..] else logs
    case _ => logs
  }

  ghost predicate Rising(pubs: seq<Publication>) {
    forall i, j :: 0 <= i < j < |pubs| ==> pubs[i].generation < pubs[j].generation && pubs[i].sequence < pubs[j].sequence
  }

  function Last<T>(s: seq<T>): T
    requires s != []
  {
    s[|s| - 1]
  }

  /** Nothing is unaccounted for, the queue is the newest part, and the newest publication names the head. */
  ghost predicate SubscriberOk(o: Options, s: State, sub: Subscriber, log: Log) {
    && |log.enqueued| == |log.delivered| + |sub.queue| + sub.dropped
    && sub.queue == log.enqueued[|log.delivered| + sub.dropped..]
    && |sub.queue| <= o.queueBound
    && Rising(log.enqueued)
    && Rising(log.delivered + sub.queue)
    && (forall p :: p in log.delivered ==> p in log.enqueued)
    && (if s.Head() == 0 then log.enqueued == []
        else
          && log.enqueued != []
          && Last(log.enqueued).generation == s.Head()
          && Last(log.enqueued).sequence <= s.publicationSequence
          && log.delivered + sub.queue != []
          && Last(log.delivered + sub.queue) == Last(log.enqueued))
  }

  ghost predicate AllOk(o: Options, s: State, logs: seq<Log>) {
    |logs| == |s.subscribers| && forall i :: 0 <= i < |logs| ==> SubscriberOk(o, s, s.subscribers[i], logs[i])
  }

  lemma RisingAppend(pubs: seq<Publication>, p: Publication)
    requires Rising(pubs)
    requires pubs != [] ==> Last(pubs).generation < p.generation && Last(pubs).sequence < p.sequence
    ensures Rising(pubs + [p])
    ensures forall q :: q in pubs ==> q.generation < p.generation && q.sequence < p.sequence
  {
    forall i | 0 <= i < |pubs|
      ensures pubs[i].generation < p.generation && pubs[i].sequence < p.sequence
    {
      assert i < |pubs| - 1 ==> pubs[i].generation < Last(pubs).generation;
    }
  }

  /** The queue after the publication is still the newest part of what was queued. */
  lemma SuffixGrows(o: Options, sub: Subscriber, log: Log, p: Publication)
    requires o.queueBound >= 1 && |sub.queue| <= o.queueBound
    requires |log.enqueued| == |log.delivered| + |sub.queue| + sub.dropped
    requires sub.queue == log.enqueued[|log.delivered| + sub.dropped..]
    ensures var grown := Enqueue(sub, p, o.queueBound);
      && |log.enqueued| + 1 == |log.delivered| + |grown.queue| + grown.dropped
      && grown.queue == (log.enqueued + [p])[|log.delivered| + grown.dropped..]
      && 0 < |grown.queue| <= o.queueBound && Last(grown.queue) == p
      && (grown.queue == sub.queue + [p]
          || (|grown.queue| <= |sub.queue| && grown.queue == (sub.queue + [p])[|sub.queue| + 1 - |grown.queue|..]))
  {
    assert sub.queue + [p] == (log.enqueued + [p])[|log.delivered| + sub.dropped..];
  }

  lemma PublicationOk(o: Options, s: State, t: State, sub: Subscriber, log: Log, p: Publication)
    requires o.queueBound >= 1 && SubscriberOk(o, s, sub, log)
    requires t.Head() == s.Head() + 1 && t.publicationSequence == s.publicationSequence + 1
    requires p == Publication(t.Head(), t.publicationSequence, 0)
    ensures SubscriberOk(o, t, Enqueue(sub, p, o.queueBound), log.(enqueued := log.enqueued + [p]))
  {
    hide Rising, Enqueue;
    var grown := Enqueue(sub, p, o.queueBound);
    SuffixGrows(o, sub, log, p);
    RisingOn(o, s, sub, log, p, grown);
    assert Last(log.delivered + grown.queue) == Last(grown.queue);
  }

  /** A publication after all that were queued keeps both accounts rising. */
  lemma RisingOn(o: Options, s: State, sub: Subscriber, log: Log, p: Publication, grown: Subscriber)
    requires SubscriberOk(o, s, sub, log) && p.generation > s.Head() && p.sequence > s.publicationSequence
    requires sub.queue + [p] == grown.queue || (|grown.queue| <= |sub.queue| && grown.queue == (sub.queue + [p])[|sub.queue| + 1 - |grown.queue|..])
    ensures Rising(log.enqueued + [p]) && Rising(log.delivered + grown.queue)
  {
    hide Rising;
    RisingAppend(log.enqueued, p);
    forall q | q in sub.queue
      ensures q in log.enqueued
    {
    }
    RisingRest(log, sub, p, grown);
  }

  /** What was delivered and the queue after the publication still rise. */
  lemma RisingRest(log: Log, sub: Subscriber, p: Publication, grown: Subscriber)
    requires Rising(log.delivered + sub.queue)
    requires sub.queue + [p] == grown.queue || (|grown.queue| <= |sub.queue| && grown.queue == (sub.queue + [p])[|sub.queue| + 1 - |grown.queue|..])
    requires forall q :: q in log.delivered || q in sub.queue ==> q.generation < p.generation && q.sequence < p.sequence
    ensures Rising(log.delivered + grown.queue)
  {
    var old', new' := log.delivered + sub.queue, log.delivered + grown.queue;
    var cut := |sub.queue| + 1 - |grown.queue|;
    forall i, j | 0 <= i < j < |new'|
      ensures new'[i].generation < new'[j].generation && new'[i].sequence < new'[j].sequence
    {
      var i' := if i < |log.delivered| then i else i + cut;
      var j' := if j < |log.delivered| then j else j + cut;
      assert i' < |old'| && new'[i] == old'[i'];
      if j < |new'| - 1 {
        assert new'[j] == old'[j'];
      } else {
        assert new'[j] == p || new'[j] == old'[j'];
        assert old'[i'] in log.delivered || old'[i'] in sub.queue;
      }
    }
  }

  lemma PolledOk(o: Options, s: State, sub: Subscriber, log: Log)
    requires SubscriberOk(o, s, sub, log) && sub.queue != []
    ensures SubscriberOk(o, s, sub.(queue := sub.queue[1..]), log.(delivered := log.delivered + [sub.queue[0]]))
  {
    assert log.delivered + sub.queue == log.delivered + [sub.queue[0]] + sub.queue[1..];
    assert sub.queue[0] in log.enqueued;
  }

  /** Proposing, validating, cancelling and shutting down leave subscribers and head alone. */
  lemma Unconcerned(env: Env, o: Options, s: State, call: Call)
    requires call.Propose? || call.Validate? || call.Cancel? || call.Shutdown?
    ensures var t := Step(env, o, s, call).0;
      t.subscribers == s.subscribers && t.documents == s.documents && t.publicationSequence == s.publicationSequence
  {
    hide LiveOnly, IndexOf, FirstFree, NewProposal;
  }

  /** An account stays in order when sequence numbers are given out to others. */
  lemma LaterAccount(o: Options, s: State, t: State, sub: Subscriber, log: Log)
    requires SubscriberOk(o, s, sub, log) && t.documents == s.documents && t.publicationSequence >= s.publicationSequence
    ensures SubscriberOk(o, t, sub, log)
  {
    hide Rising;
  }

  lemma SameSubscribersOk(o: Options, s: State, t: State, logs: seq<Log>)
    requires AllOk(o, s, logs)
    requires t.subscribers == s.subscribers && t.documents == s.documents && t.publicationSequence == s.publicationSequence
    ensures AllOk(o, t, logs)
  {
    forall i | 0 <= i < |logs|
      ensures SubscriberOk(o, t, t.subscribers[i], logs[i])
    {
      assert SubscriberOk(o, s, s.subscribers[i], logs[i]);
    }
  }

  lemma CommitTracked(env: Env, o: Options, s: State, logs: seq<Log>, id: nat, token: Fence, storeFails: bool)
    requires o.publishOnCommit && o.queueBound >= 1 && AllOk(o, s, logs)
    ensures AllOk(o, CommitStep(env, o, s, id, token, storeFails).0, Track(env, o, s, logs, CommitCall(id, token, storeFails)))
  {
    hide SubscriberOk;
    var (t, reply) := CommitStep(env, o, s, id, token, storeFails);
    if reply.Outcome? {
      var p := Publication(t.Head(), t.publicationSequence, 0);
      assert t.subscribers == EnqueueAll(s.subscribers, p, o.queueBound);
      forall i | 0 <= i < |logs|
        ensures SubscriberOk(o, t, t.subscribers[i], LogPublication(logs, p)[i])
      {
        PublicationOk(o, s, t, s.subscribers[i], logs[i], p);
      }
    } else {
      SameSubscribersOk(o, s, t, logs);
    }
  }

  /** A new subscriber starts with the committed head, if there is one. */
  lemma SubscribeTracked(env: Env, o: Options, s: State, logs: seq<Log>)
    requires o.queueBound >= 1 && AllOk(o, s, logs)
    ensures AllOk(o, SubscribeStep(o, s).0, Track(env, o, s, logs, Subscribe))
  {
    hide SubscriberOk;
    var t := SubscribeStep(o, s).0;
    forall i | 0 <= i < |logs|
      ensures SubscriberOk(o, t, s.subscribers[i], logs[i])
    {
      LaterAccount(o, s, t, s.subscribers[i], logs[i]);
    }
    if |t.subscribers| > |s.subscribers| {
      NewAccount(o, t, t.subscribers[|s.subscribers|]);
    }
  }

  /** The account of a new subscriber: nothing yet, or the head alone. */
  lemma NewAccount(o: Options, s: State, sub: Subscriber)
    requires o.queueBound >= 1 && sub.dropped == 0
    requires sub.queue == if s.Head() == 0 then [] else [Publication(s.Head(), s.publicationSequence, 0)]
    ensures SubscriberOk(o, s, sub, Log(sub.queue, []))
  {
    assert [] + sub.queue == sub.queue;
  }

  lemma PollTracked(env: Env, o: Options, s: State, logs: seq<Log>, id: nat)
    requires AllOk(o, s, logs)
    ensures AllOk(o, PollStep(s, id).0, Track(env, o, s, logs, Poll(id)))
  {
    hide SubscriberOk;
    var k := SubscriberAt(s.subscribers, id);
    if k < |s.subscribers| && s.subscribers[k].queue != [] {
      var sub, log := s.subscribers[k], logs[k];
      var sub', log' := sub.(queue := sub.queue[1..]), log.(delivered := log.delivered + [sub.queue[0]]);
      PolledOk(o, s, sub, log);
      ReplacedOk(o, s, logs, k, sub', log');
    }
  }

  lemma ReplacedOk(o: Options, s: State, logs: seq<Log>, k: nat, sub: Subscriber, log: Log)
    requires AllOk(o, s, logs) && k < |logs| && SubscriberOk(o, s, sub, log)
    ensures AllOk(o, s.(subscribers := s.subscribers[k := sub]), logs[k := log])
  {
    hide SubscriberOk;
    var t := s.(subscribers := s.subscribers[k := sub]);
    forall i | 0 <= i < |logs|
      ensures SubscriberOk(o, t, t.subscribers[i], logs[k := log][i])
    {
      LaterAccount(o, s, t, if i == k then sub else s.subscribers[i], if i == k then log else logs[i]);
    }
  }

  lemma UnsubscribeTracked(env: Env, o: Options, s: State, logs: seq<Log>, id: nat)
    requires AllOk(o, s, logs)
    ensures AllOk(o, UnsubscribeStep(s, id).0, Track(env, o, s, logs, Unsubscribe(id)))
  {
    hide SubscriberOk;
    var k := SubscriberAt(s.subscribers, id);
    if k < |s.subscribers| {
      RemovedOk(o, s, logs, k);
    }
  }

  lemma RemovedOk(o: Options, s: State, logs: seq<Log>, k: nat)
    requires AllOk(o, s, logs) && k < |logs|
    ensures AllOk(o, s.(subscribers := s.subscribers[..k] + s.subscribers[k + 1..]), logs[..k] + logs[k + 1..])
  {
    hide SubscriberOk;
    var t := s.(subscribers := s.subscribers[..k] + s.subscribers[k + 1..]);
    var after := logs[..k] + logs[k + 1..];
    forall i | 0 <= i < |after|
      ensures SubscriberOk(o, t, t.subscribers[i], after[i])
    {
      var j := if i < k then i else i + 1;
      LaterAccount(o, s, t, s.subscribers[j], logs[j]);
    }
  }

  /** Every call keeps every subscriber's account. */
  lemma TrackOk(env: Env, o: Options, s: State, logs: seq<Log>, call: Call)
    requires o.publishOnCommit && o.queueBound >= 1 && AllOk(o, s, logs)
    ensures AllOk(o, Step(env, o, s, call).0, Track(env, o, s, logs, call))
  {
    hide CommitStep, PollStep, SubscribeStep, UnsubscribeStep, ProposeStep, ValidateStep, CancelStep;
    match call
    case CommitCall(id, token, storeFails) => CommitTracked(env, o, s, logs, id, token, storeFails);
    case Subscribe => SubscribeTracked(env, o, s, logs);
    case Unsubscribe(id) => UnsubscribeTracked(env, o, s, logs, id);
    case Poll(id) => PollTracked(env, o, s, logs, id);
    case _ =>
      Unconcerned(env, o, s, call);
      SameSubscribersOk(o, s, Step(env, o, s, call).0, logs);
  }

  function TrackRun(env: Env, o: Options, s: State, calls: seq<Call>): seq<Log>
    requires s.subscribers == []
  {
    if calls == [] then []
    else
      var before := calls[..|calls| - 1];
      var t, logs := Run(env, o, s, before), TrackRun(env, o, s, before);
      if |logs| == |t.subscribers| then Track(env, o, t, logs, calls[|calls| - 1]) else []
  }

  /**
   * For every subscriber in every run of a fresh runtime: what was queued is what was delivered, is still
   * queued or was counted as dropped; the queue is the newest part of it and within bound; delivered
   * generations and sequence numbers strictly rise; the newest publication names the head and is never
   * dropped.
   */
  lemma {:induction false} SubscribersAccounted(env: Env, o: Options, s: State, calls: seq<Call>)
    requires s.subscribers == [] && o.publishOnCommit && o.queueBound >= 1
    ensures AllOk(o, Run(env, o, s, calls), TrackRun(env, o, s, calls))
  {
    if calls != [] {
      var before := calls[..|calls| - 1];
      SubscribersAccounted(env, o, s, before);
      TrackOk(env, o, Run(env, o, s, before), TrackRun(env, o, s, before), calls[|calls| - 1]);
    }
  }

  // ----- subscriber identities ------------------------------------------------------------------

  /** Identities rise along the list, below the next one to be given out. */
  ghost predicate IdsRise(s: State) {
    && (forall i, j :: 0 <= i < j < |s.subscribers| ==> s.subscribers[i].id < s.subscribers[j].id)
    && forall i :: 0 <= i < |s.subscribers| ==> s.subscribers[i].id < s.nextSubscription
  }

  lemma IdsStep(env: Env, o: Options, s: State, call: Call)
    requires IdsRise(s)
    ensures IdsRise(Step(env, o, s, call).0)
  {
    hide ProposeStep, ValidateStep, CancelStep, CommitStep, SubscribeStep, UnsubscribeStep, PollStep, IdsRise;
    var t := Step(env, o, s, call).0;
    match call
    case CommitCall(id, token, storeFails) => CommitIds(env, o, s, id, token, storeFails);
    case Subscribe => SubscribeIds(o, s);
    case Unsubscribe(id) => UnsubscribeIds(s, id);
    case Poll(id) => PollIds(s, id);
    case _ =>
      OthersIds(env, o, s, call);
      SameIds(s, t);
  }

  lemma OthersIds(env: Env, o: Options, s: State, call: Call)
    requires call.Propose? || call.Validate? || call.Cancel? || call.Shutdown?
    ensures var t := Step(env, o, s, call).0; t.subscribers == s.subscribers && t.nextSubscription == s.nextSubscription
  {
    hide LiveOnly, IndexOf, FirstFree, NewProposal;
  }

  lemma CommitIds(env: Env, o: Options, s: State, id: nat, token: Fence, storeFails: bool)
    requires IdsRise(s)
    ensures IdsRise(CommitStep(env, o, s, id, token, storeFails).0)
  {
  }

  lemma SubscribeIds(o: Options, s: State)
    requires IdsRise(s)
    ensures IdsRise(SubscribeStep(o, s).0)
  {
  }

  lemma UnsubscribeIds(s: State, id: nat)
    requires IdsRise(s)
    ensures IdsRise(UnsubscribeStep(s, id).0)
  {
    RemovedRises(s, SubscriberAt(s.subscribers, id));
  }

  lemma PollIds(s: State, id: nat)
    requires IdsRise(s)
    ensures IdsRise(PollStep(s, id).0)
  {
  }

  lemma SameIds(s: State, t: State)
    requires IdsRise(s) && t.subscribers == s.subscribers && t.nextSubscription == s.nextSubscription
    ensures IdsRise(t)
  {
  }

  lemma RemovedRises(s: State, k: nat)
    requires IdsRise(s) && k <= |s.subscribers|
    ensures k < |s.subscribers| ==> IdsRise(s.(subscribers := s.subscribers[..k] + s.subscribers[k + 1..]))
  {
  }

  /** In every run no two subscribers share an identity. */
  lemma {:induction false} SubscribersDistinct(env: Env, o: Options, s: State, calls: seq<Call>)
    requires s.subscribers == []
    ensures IdsRise(Run(env, o, s, calls))
  {
    hide Step, IdsRise;
    if calls != [] {
      SubscribersDistinct(env, o, s, calls[..|calls| - 1]);
      IdsStep(env, o, Run(env, o, s, calls[..|calls| - 1]), calls[|calls| - 1]);
    } else {
      NoSubscribers(s);
    }
  }

  lemma NoSubscribers(s: State)
    requires s.subscribers == []
    ensures IdsRise(s)
  {
  }

  /**
   * In every run of a fresh runtime, what a poll hands over is the oldest queued publication, together with
   * the drops so far.
   */
  lemma PollDelivers(env: Env, o: Options, s: State, calls: seq<Call>, k: nat)
    requires s.subscribers == [] && o.publishOnCommit && o.queueBound >= 1
    requires k < |Run(env, o, s, calls).subscribers|
    ensures |TrackRun(env, o, s, calls)| == |Run(env, o, s, calls).subscribers|
    ensures var t := Run(env, o, s, calls);
      var sub, log := t.subscribers[k], TrackRun(env, o, s, calls)[k]; var reply := PollStep(t, sub.id).1;
      && (reply == Polled(None) <==> |log.enqueued| == |log.delivered| + sub.dropped)
      && (reply != Polled(None) ==>
            |log.delivered| + sub.dropped < |log.enqueued|
            && reply == Polled(Some(log.enqueued[|log.delivered| + sub.dropped].(dropped := sub.dropped))))
  {
    hide Run, TrackRun;
    var t := Run(env, o, s, calls);
    SubscribersAccounted(env, o, s, calls);
    SubscribersDistinct(env, o, s, calls);
    assert SubscriberOk(o, t, t.subscribers[k], TrackRun(env, o, s, calls)[k]);
    FoundUnderId(t, k);
  }

  lemma FoundUnderId(s: State, k: nat)
    requires IdsRise(s) && k < |s.subscribers|
    ensures SubscriberAt(s.subscribers, s.subscribers[k].id) == k
  {
    var at := SubscriberAt(s.subscribers, s.subscribers[k].id);
    assert at <= k;
  }
}
