/** The notification fan-out (api/consent_listener.py): one bounded drop-oldest queue for each
    owner, and a registry of bounded queues for developers waiting on one request. The source
    never suspends inside a critical section, so that each of its functions is one step of the
    event loop, and consumers read between steps. */
module ConsentListener {
  import opened Text
  import opened Json

  type Event = map<string, Json>

  const OWNER_QUEUE_MAX: nat := 100
  const DEVELOPER_QUEUE_MAX: nat := 20

  // ------------------------------------------------------------------
  // One bounded queue
  // ------------------------------------------------------------------

  /** What happens to one queue: an event is put into it, or a consumer takes from it. */
  datatype QueueOp = Put(event: Event) | Take

  /** Putting an event in, dropping the oldest one when the queue is full. */
  function AfterPut(items: seq<Event>, event: Event, max: nat): seq<Event> {
    if |items| < max then items + [event] else (if items == [] then [] else items[1..]) + [event]
  }

  /** Taking the oldest event; a consumer of an empty queue waits. */
  function AfterTake(items: seq<Event>): seq<Event> {
    if items == [] then [] else items[1..]
  }

  function Apply(items: seq<Event>, op: QueueOp, max: nat): seq<Event> {
    match op
    case Put(event) => AfterPut(items, event, max)
    case Take => AfterTake(items)
  }

  function Items(ops: seq<QueueOp>, max: nat): seq<Event> {
    if ops == [] then [] else Apply(Items(ops[..|ops| - 1], max), ops[|ops| - 1], max)
  }

  /** Everything ever put, in order. */
  function History(ops: seq<QueueOp>): seq<Event> {
    if ops == [] then []
    else
      var op := ops[|ops| - 1];
      History(ops[..|ops| - 1]) + (if op.Put? then [op.event] else [])
  }

  /** Everything a consumer was handed, in order. */
  function Delivered(ops: seq<QueueOp>, max: nat): seq<Event> {
    if ops == [] then []
    else
      var before := ops[..|ops| - 1];
      Delivered(before, max)
      + (if ops[|ops| - 1].Take? && Items(before, max) != [] then [Items(before, max)[0]] else [])
  }

  /** How many events were dropped. */
  function Dropped(ops: seq<QueueOp>, max: nat): nat {
    if ops == [] then 0
    else
      var before := ops[..|ops| - 1];
      Dropped(before, max) + (if ops[|ops| - 1].Put? && |Items(before, max)| >= max then 1 else 0)
  }

  /** At most max events, and exactly the last ones of a history. */
  predicate IsNewestPart(held: seq<Event>, history: seq<Event>, max: nat) {
    |held| <= max && |held| <= |history| && held == history[|history| - |held|..]
  }

  lemma StaysNewestPart(held: seq<Event>, history: seq<Event>, op: QueueOp, max: nat)
    requires IsNewestPart(held, history, max) && max >= 1
    ensures IsNewestPart(Apply(held, op, max), history + (if op.Put? then [op.event] else []), max)
  {
  }

  /** The queue never exceeds its bound, and holds exactly the newest part of what was put. */
  lemma {:induction false} QueueIsSuffix(ops: seq<QueueOp>, max: nat)
    requires max >= 1
    ensures IsNewestPart(Items(ops, max), History(ops), max)
  {
    if ops != [] {
      var before := ops[..|ops| - 1];
      QueueIsSuffix(before, max);
      StaysNewestPart(Items(before, max), History(before), ops[|ops| - 1], max);
    }
  }

  /** Nothing is lost except by dropping. */
  lemma {:induction false} EventsAreConserved(ops: seq<QueueOp>, max: nat)
    requires max >= 1
    ensures |History(ops)| == |Delivered(ops, max)| + Dropped(ops, max) + |Items(ops, max)|
  {
    if ops != [] {
      EventsAreConserved(ops[..|ops| - 1], max);
      QueueIsSuffix(ops[..|ops| - 1], max);
    }
  }

  /** The place in the history of each delivered event. */
  function Places(ops: seq<QueueOp>, max: nat): (places: seq<nat>)
    requires max >= 1
  {
    if ops == [] then []
    else
      var before := ops[..|ops| - 1];
      QueueIsSuffix(before, max);
      Places(before, max)
      + (if ops[|ops| - 1].Take? && Items(before, max) != []
         then [|History(before)| - |Items(before, max)|] else [])
  }

  lemma {:induction false} PlacesAreDelivered(ops: seq<QueueOp>, max: nat)
    requires max >= 1
    ensures |Places(ops, max)| == |Delivered(ops, max)|
    ensures forall k :: 0 <= k < |Places(ops, max)| ==>
              Places(ops, max)[k] < |History(ops)| && Delivered(ops, max)[k] == History(ops)[Places(ops, max)[k]]
  {
    if ops != [] {
      QueueIsSuffix(ops[..|ops| - 1], max);
      PlacesAreDelivered(ops[..|ops| - 1], max);
    }
  }

  lemma {:induction false} PlacesIncrease(ops: seq<QueueOp>, max: nat)
    requires max >= 1
    ensures forall k :: 0 <= k < |Places(ops, max)| ==> Places(ops, max)[k] < |History(ops)| - |Items(ops, max)|
    ensures forall j, k :: 0 <= j < k < |Places(ops, max)| ==> Places(ops, max)[j] < Places(ops, max)[k]
  {
    if ops != [] {
      QueueIsSuffix(ops[..|ops| - 1], max);
      PlacesIncrease(ops[..|ops| - 1], max);
    }
  }

  /** Events are delivered in the order they were put, each at most once, and never one that is
      older than a delivered one: the k-th delivery is the event at place Places[k] of the
      history, the places increase, and all of them lie before what the queue still holds. */
  lemma DeliveryKeepsOrder(ops: seq<QueueOp>, max: nat)
    requires max >= 1
    ensures |Places(ops, max)| == |Delivered(ops, max)| && |Items(ops, max)| <= |History(ops)|
    ensures forall k :: 0 <= k < |Places(ops, max)| ==>
              && Places(ops, max)[k] < |History(ops)| - |Items(ops, max)|
              && Delivered(ops, max)[k] == History(ops)[Places(ops, max)[k]]
    ensures forall j, k :: 0 <= j < k < |Places(ops, max)| ==> Places(ops, max)[j] < Places(ops, max)[k]
  {
    QueueIsSuffix(ops, max);
    PlacesAreDelivered(ops, max);
    PlacesIncrease(ops, max);
  }

  ghost predicate EverFull(ops: seq<QueueOp>, max: nat) {
    exists i :: 0 <= i < |ops| && ops[i].Put? && |Items(ops[..i], max)| >= max
  }

  lemma EverFullGrows(ops: seq<QueueOp>, max: nat)
    requires ops != []
    ensures EverFull(ops, max)
       <==> EverFull(ops[..|ops| - 1], max)
            || (ops[|ops| - 1].Put? && |Items(ops[..|ops| - 1], max)| >= max)
  {
    var n := |ops| - 1;
    assert forall i :: 0 <= i <= n ==> ops[..n][..i] == ops[..i];
    if EverFull(ops[..n], max) {
      var i :| 0 <= i < n && ops[..n][i].Put? && |Items(ops[..n][..i], max)| >= max;
      assert ops[i].Put? && |Items(ops[..i], max)| >= max;
    }
    if EverFull(ops, max) {
      var i :| 0 <= i < |ops| && ops[i].Put? && |Items(ops[..i], max)| >= max;
      if i < n { assert ops[..n][i].Put? && |Items(ops[..n][..i], max)| >= max; }
    }
  }

  /** The consumer hears everything if and only if no event ever arrived at a full queue. */
  lemma {:induction false} LosslessUnlessFull(ops: seq<QueueOp>, max: nat)
    requires max >= 1
    ensures Delivered(ops, max) + Items(ops, max) == History(ops) <==> !EverFull(ops, max)
    ensures Dropped(ops, max) == 0 <==> !EverFull(ops, max)
  {
    EventsAreConserved(ops, max);
    if ops != [] {
      EverFullGrows(ops, max);
      LosslessUnlessFull(ops[..|ops| - 1], max);
    }
  }

  // ------------------------------------------------------------------
  // The registry as a state machine
  // ------------------------------------------------------------------

  datatype Key = Key(request: string, agent: string)

  /** (str(request_id or "").strip(), str(agent_id or "").strip()) */
  function KeyOf(request: string, agent: string): Key {
    Key(Strip(request), Strip(agent))
  }

  function EventKey(e: Event, show: Json -> string): Key {
    KeyOf(TextOf(Field(e, "request_id"), show), TextOf(Field(e, "agent_id"), show))
  }

  /** The owners' queues by user, the registry, and the contents of every developer queue ever
      handed out. Q stands for the identity of a queue. */
  datatype State<!Q> = State(owners: map<string, seq<Event>>, subscribers: map<Key, set<Q>>, queues: map<Q, seq<Event>>)

  datatype Step<!Q> =
    | OpenOwner(user: string)
    | PushOwner(user: string, event: Event)
    | ReadOwner(user: string)
    | Subscribe(request: string, agent: string, queue: Q)
    | Unsubscribe(request: string, agent: string, queue: Q)
    | PushDevelopers(event: Event)
    | ReadDeveloper(queue: Q)

  /** The queues an event is put into. */
  function Audience<Q>(subscribers: map<Key, set<Q>>, e: Event, show: Json -> string): set<Q> {
    var key := EventKey(e, show);
    if key.request == "" || key.agent == "" || key !in subscribers then {} else subscribers[key]
  }

  function NextOwners<Q>(owners: map<string, seq<Event>>, step: Step<Q>): map<string, seq<Event>> {
    match step
    case OpenOwner(user) => if user in owners then owners else owners[user := []]
    case PushOwner(user, event) =>
      if user in owners then owners[user := AfterPut(owners[user], event, OWNER_QUEUE_MAX)] else owners
    case ReadOwner(user) => if user in owners then owners[user := AfterTake(owners[user])] else owners
    case _ => owners
  }

  function NextSubscribers<Q>(subscribers: map<Key, set<Q>>, step: Step<Q>): map<Key, set<Q>> {
    match step
    case Subscribe(request, agent, queue) =>
      var key := KeyOf(request, agent);
      subscribers[key := (if key in subscribers then subscribers[key] else {}) + {queue}]
    case Unsubscribe(request, agent, queue) =>
      var key := KeyOf(request, agent);
      if key !in subscribers then subscribers
      else if subscribers[key] - {queue} == {} then subscribers - {key}
      else subscribers[key := subscribers[key] - {queue}]
    case _ => subscribers
  }

  /** The queues once an event was put into those of its audience. */
  function Pushed<Q>(queues: map<Q, seq<Event>>, audience: set<Q>, event: Event): map<Q, seq<Event>> {
    map q | q in queues :: if q in audience then AfterPut(queues[q], event, DEVELOPER_QUEUE_MAX) else queues[q]
  }

  function NextQueues<Q>(queues: map<Q, seq<Event>>, subscribers: map<Key, set<Q>>, step: Step<Q>,
                         show: Json -> string): map<Q, seq<Event>> {
    match step
    case Subscribe(_, _, queue) => queues[queue := []]
    case PushDevelopers(event) =>
      Pushed(queues, Audience(subscribers, event, show), event)
    case ReadDeveloper(queue) => if queue in queues then queues[queue := AfterTake(queues[queue])] else queues
    case _ => queues
  }

  function Next<Q>(s: State<Q>, step: Step<Q>, show: Json -> string): State<Q> {
    State(NextOwners(s.owners, step), NextSubscribers(s.subscribers, step),
          NextQueues(s.queues, s.subscribers, step, show))
  }

  function Run<Q>(steps: seq<Step<Q>>, show: Json -> string): State<Q> {
    if steps == [] then State(map[], map[], map[])
    else Next(Run(steps[..|steps| - 1], show), steps[|steps| - 1], show)
  }

  /** A subscription always gets a new queue. */
  ghost predicate FreshQueues<Q>(steps: seq<Step<Q>>, show: Json -> string) {
    forall i :: 0 <= i < |steps| && steps[i].Subscribe? ==> steps[i].queue !in Run(steps[..i], show).queues
  }

  // ------------------------------------------------------------------
  // What each queue hears
  // ------------------------------------------------------------------

  function NextOwnerOps<Q>(ops: Option<seq<QueueOp>>, step: Step<Q>, user: string): Option<seq<QueueOp>> {
    match step
    case OpenOwner(u) => if u == user && ops.None? then Some([]) else ops
    case PushOwner(u, event) => if u == user && ops.Some? then Some(ops.value + [Put(event)]) else ops
    case ReadOwner(u) => if u == user && ops.Some? then Some(ops.value + [Take]) else ops
    case _ => ops
  }

  /** What happened to an owner's queue, told from the steps alone: the pushes and reads for
      that user since the queue was first asked for. */
  function OwnerOps<Q>(steps: seq<Step<Q>>, user: string): Option<seq<QueueOp>> {
    if steps == [] then None
    else NextOwnerOps(OwnerOps(steps[..|steps| - 1], user), steps[|steps| - 1], user)
  }

  function NextSubscription<Q(==)>(key: Option<Key>, step: Step<Q>, queue: Q): Option<Key> {
    match step
    case Subscribe(request, agent, q) => if q == queue then Some(KeyOf(request, agent)) else key
    case Unsubscribe(request, agent, q) => if q == queue && key == Some(KeyOf(request, agent)) then None else key
    case _ => key
  }

  /** The key a queue is subscribed under after the steps, if it still is. */
  function Subscription<Q(==)>(steps: seq<Step<Q>>, queue: Q): Option<Key> {
    if steps == [] then None
    else NextSubscription(Subscription(steps[..|steps| - 1], queue), steps[|steps| - 1], queue)
  }

  /** Whether a queue subscribed under the key is to hear the event. */
  predicate Hears(key: Option<Key>, e: Event, show: Json -> string) {
    EventKey(e, show).request != "" && EventKey(e, show).agent != "" && key == Some(EventKey(e, show))
  }

  function NextDeveloperOps<Q(==)>(ops: seq<QueueOp>, key: Option<Key>, step: Step<Q>, queue: Q,
                                   show: Json -> string): seq<QueueOp> {
    match step
    case Subscribe(_, _, q) => if q == queue then [] else ops
    case PushDevelopers(event) => if Hears(key, event, show) then ops + [Put(event)] else ops
    case ReadDeveloper(q) => if q == queue then ops + [Take] else ops
    case _ => ops
  }

  /** What happened to a developer's queue: the events of its own key pushed while it was
      subscribed, and its reads. */
  function DeveloperOps<Q(==)>(steps: seq<Step<Q>>, queue: Q, show: Json -> string): seq<QueueOp> {
    if steps == [] then []
    else
      var before := steps[..|steps| - 1];
      NextDeveloperOps(DeveloperOps(before, queue, show), Subscription(before, queue), steps[|steps| - 1], queue, show)
  }

  lemma ItemsAfter(ops: seq<QueueOp>, op: QueueOp, max: nat)
    ensures Items(ops + [op], max) == Apply(Items(ops, max), op, max)
  {
    assert (ops + [op])[..|ops|] == ops;
  }

  ghost predicate OwnerFits(owners: map<string, seq<Event>>, user: string, ops: Option<seq<QueueOp>>) {
    && (user in owners <==> ops.Some?)
    && (ops.Some? ==> owners[user] == Items(ops.value, OWNER_QUEUE_MAX))
  }

  lemma OwnerStep<Q>(owners: map<string, seq<Event>>, step: Step<Q>, user: string, ops: Option<seq<QueueOp>>)
    requires OwnerFits(owners, user, ops)
    ensures OwnerFits(NextOwners(owners, step), user, NextOwnerOps(ops, step, user))
  {
    if ops.Some? {
      ItemsAfter(ops.value, Take, OWNER_QUEUE_MAX);
      if step.PushOwner? { ItemsAfter(ops.value, Put(step.event), OWNER_QUEUE_MAX); }
    }
  }

  /** Every owner's queue is the bounded queue its own pushes and reads make, and it exists
      exactly for the users whose queue was asked for. */
  lemma {:induction false} OwnerQueueMeaning<Q>(steps: seq<Step<Q>>, user: string, show: Json -> string)
    ensures OwnerFits(Run(steps, show).owners, user, OwnerOps(steps, user))
  {
    if steps != [] {
      OwnerQueueMeaning(steps[..|steps| - 1], user, show);
      OwnerStep(Run(steps[..|steps| - 1], show).owners, steps[|steps| - 1], user, OwnerOps(steps[..|steps| - 1], user));
    }
  }

  /** No key of the registry ever stands for an empty set. */
  lemma {:induction false} NoEmptySubscriberSets<Q>(steps: seq<Step<Q>>, show: Json -> string)
    ensures forall key :: key in Run(steps, show).subscribers ==> Run(steps, show).subscribers[key] != {}
  {
    if steps != [] {
      NoEmptySubscriberSets(steps[..|steps| - 1], show);
    }
  }

  lemma FreshBefore<Q>(steps: seq<Step<Q>>, show: Json -> string)
    requires steps != [] && FreshQueues(steps, show)
    ensures FreshQueues(steps[..|steps| - 1], show)
    ensures steps[|steps| - 1].Subscribe? ==> steps[|steps| - 1].queue !in Run(steps[..|steps| - 1], show).queues
  {
    var n := |steps| - 1;
    forall i | 0 <= i < n && steps[..n][i].Subscribe? ensures steps[..n][i].queue !in Run(steps[..n][..i], show).queues {
      assert steps[..n][..i] == steps[..i] && steps[i].Subscribe?;
    }
  }

  ghost predicate RegistryFits<Q>(subscribers: map<Key, set<Q>>, queue: Q, subscription: Option<Key>) {
    forall key :: key in subscribers && queue in subscribers[key] <==> subscription == Some(key)
  }

  lemma RegistryStep<Q>(subscribers: map<Key, set<Q>>, step: Step<Q>, queue: Q, subscription: Option<Key>)
    requires RegistryFits(subscribers, queue, subscription)
    requires step.Subscribe? && step.queue == queue ==> subscription.None?
    ensures RegistryFits(NextSubscribers(subscribers, step), queue, NextSubscription(subscription, step, queue))
  {
    if step.Unsubscribe? {
      var key := KeyOf(step.request, step.agent);
      if key in subscribers && queue != step.queue && queue in subscribers[key] {
        assert queue in subscribers[key] - {step.queue};
      }
    }
  }

  /** The registry holds a queue under a key exactly while it is subscribed under that key. */
  lemma {:induction false} RegistryMeaning<Q>(steps: seq<Step<Q>>, queue: Q, show: Json -> string)
    requires FreshQueues(steps, show)
    ensures RegistryFits(Run(steps, show).subscribers, queue, Subscription(steps, queue))
    ensures Subscription(steps, queue).Some? ==> queue in Run(steps, show).queues
  {
    if steps != [] {
      var before := steps[..|steps| - 1];
      FreshBefore(steps, show);
      RegistryMeaning(before, queue, show);
      RegistryStep(Run(before, show).subscribers, steps[|steps| - 1], queue, Subscription(before, queue));
    }
  }

  lemma DeveloperStep<Q>(s: State<Q>, step: Step<Q>, queue: Q, key: Option<Key>, ops: seq<QueueOp>, show: Json -> string)
    requires queue in s.queues && s.queues[queue] == Items(ops, DEVELOPER_QUEUE_MAX)
    requires RegistryFits(s.subscribers, queue, key) && !(step.Subscribe? && step.queue == queue)
    ensures queue in Next(s, step, show).queues
    ensures Next(s, step, show).queues[queue] == Items(NextDeveloperOps(ops, key, step, queue, show), DEVELOPER_QUEUE_MAX)
  {
    ItemsAfter(ops, Take, DEVELOPER_QUEUE_MAX);
    if step.PushDevelopers? {
      ItemsAfter(ops, Put(step.event), DEVELOPER_QUEUE_MAX);
      assert queue in Audience(s.subscribers, step.event, show) <==> Hears(key, step.event, show);
    }
  }

  /** A developer's queue is the bounded queue made by exactly the events of its own request and
      agent that were pushed while it was subscribed, and by its own reads. */
  lemma {:induction false} DeveloperQueueMeaning<Q>(steps: seq<Step<Q>>, queue: Q, show: Json -> string)
    requires FreshQueues(steps, show) && queue in Run(steps, show).queues
    ensures Run(steps, show).queues[queue] == Items(DeveloperOps(steps, queue, show), DEVELOPER_QUEUE_MAX)
  {
    var before, step := steps[..|steps| - 1], steps[|steps| - 1];
    FreshBefore(steps, show);
    if queue in Run(before, show).queues {
      DeveloperQueueMeaning(before, queue, show);
      RegistryMeaning(before, queue, show);
      DeveloperStep(Run(before, show), step, queue, Subscription(before, queue), DeveloperOps(before, queue, show), show);
    }
  }

  /** In every run every owner's queue holds the newest part of what was pushed for the owner,
      at most 100 events. */
  lemma OwnerQueueIsSuffix<Q>(steps: seq<Step<Q>>, user: string, show: Json -> string)
    requires user in Run(steps, show).owners
    ensures OwnerOps(steps, user).Some?
    ensures IsNewestPart(Run(steps, show).owners[user], History(OwnerOps(steps, user).value), OWNER_QUEUE_MAX)
  {
    OwnerQueueMeaning(steps, user, show);
    QueueIsSuffix(OwnerOps(steps, user).value, OWNER_QUEUE_MAX);
  }

  /** In every run every developer's queue holds the newest part of the events of its own key
      pushed while it was subscribed, at most 20. */
  lemma DeveloperQueueIsSuffix<Q>(steps: seq<Step<Q>>, queue: Q, show: Json -> string)
    requires FreshQueues(steps, show) && queue in Run(steps, show).queues
    ensures IsNewestPart(Run(steps, show).queues[queue], History(DeveloperOps(steps, queue, show)), DEVELOPER_QUEUE_MAX)
  {
    DeveloperQueueMeaning(steps, queue, show);
    QueueIsSuffix(DeveloperOps(steps, queue, show), DEVELOPER_QUEUE_MAX);
  }

  /** The i-th step pushed the event while the queue was subscribed under the event's own key,
      neither part of which is empty. */
  ghost predicate HeardAt<Q>(steps: seq<Step<Q>>, queue: Q, e: Event, show: Json -> string, i: nat) {
    i < |steps| && steps[i] == PushDevelopers(e) && Hears(Subscription(steps[..i], queue), e, show)
  }

  /** Nobody hears another request's events: whatever was ever put into a developer's queue was
      pushed under the queue's own key while it was subscribed. */
  lemma {:induction false} OnlyOwnEvents<Q>(steps: seq<Step<Q>>, queue: Q, show: Json -> string, e: Event) returns (i: nat)
    requires e in History(DeveloperOps(steps, queue, show))
    ensures HeardAt(steps, queue, e, show, i)
  {
    var n := |steps| - 1;
    var ops := DeveloperOps(steps[..n], queue, show);
    if e in History(ops) {
      i := OnlyOwnEvents(steps[..n], queue, show, e);
      assert steps[..n][..i] == steps[..i];
    } else {
      NewInHistory(ops, Subscription(steps[..n], queue), steps[n], queue, show, e);
      i := n;
    }
  }

  lemma NewInHistory<Q>(ops: seq<QueueOp>, key: Option<Key>, step: Step<Q>, queue: Q, show: Json -> string, e: Event)
    requires e !in History(ops) && e in History(NextDeveloperOps(ops, key, step, queue, show))
    ensures step == PushDevelopers(e) && Hears(key, e, show)
  {
    HistoryAfter(ops, Take);
    if step.PushDevelopers? { HistoryAfter(ops, Put(step.event)); }
  }

  lemma HistoryAfter(ops: seq<QueueOp>, op: QueueOp)
    ensures History(ops + [op]) == History(ops) + (if op.Put? then [op.event] else [])
  {
    assert (ops + [op])[..|ops|] == ops;
  }

  // ------------------------------------------------------------------
  // Who hears what, from the steps alone
  // ------------------------------------------------------------------

  /** The queue was subscribed by the j-th step under names that read so once trimmed, and no step
      before the i-th has subscribed it anew or ended that subscription. */
  ghost predicate SubscribedFrom<Q>(steps: seq<Step<Q>>, queue: Q, request: string, agent: string, j: nat, i: nat) {
    && j < i <= |steps|
    && steps[j].Subscribe? && steps[j].queue == queue
    && Strip(steps[j].request) == request && Strip(steps[j].agent) == agent
    && forall m :: j < m < i ==>
         && !(steps[m].Subscribe? && steps[m].queue == queue)
         && !(steps[m].Unsubscribe? && steps[m].queue == queue
              && Strip(steps[m].request) == request && Strip(steps[m].agent) == agent)
  }

  ghost predicate IsSubscribed<Q>(steps: seq<Step<Q>>, queue: Q, request: string, agent: string, i: nat) {
    exists j: nat :: SubscribedFrom(steps, queue, request, agent, j, i)
  }

  lemma SubscribedBefore<Q>(steps: seq<Step<Q>>, queue: Q, request: string, agent: string, i: nat)
    requires steps != [] && i < |steps|
    ensures IsSubscribed(steps[..|steps| - 1], queue, request, agent, i) <==> IsSubscribed(steps, queue, request, agent, i)
  {
    var before := steps[..|steps| - 1];
    assert forall m :: 0 <= m < i ==> before[m] == steps[m];
    if j: nat :| SubscribedFrom(steps, queue, request, agent, j, i) { assert SubscribedFrom(before, queue, request, agent, j, i); }
    if j: nat :| SubscribedFrom(before, queue, request, agent, j, i) { assert SubscribedFrom(steps, queue, request, agent, j, i); }
  }

  /** One more step either subscribes the queue, or leaves it subscribed as it was unless it ends
      that very subscription. */
  lemma SubscribedNext<Q>(steps: seq<Step<Q>>, queue: Q, request: string, agent: string)
    requires steps != []
    ensures var n, step := |steps| - 1, steps[|steps| - 1];
            IsSubscribed(steps, queue, request, agent, |steps|)
            <==> if step.Subscribe? && step.queue == queue then Strip(step.request) == request && Strip(step.agent) == agent
                 else IsSubscribed(steps, queue, request, agent, n)
                      && !(step.Unsubscribe? && step.queue == queue
                           && Strip(step.request) == request && Strip(step.agent) == agent)
  {
    var n, step := |steps| - 1, steps[|steps| - 1];
    if IsSubscribed(steps, queue, request, agent, |steps|) {
      var j: nat :| SubscribedFrom(steps, queue, request, agent, j, |steps|);
      if j < n { assert SubscribedFrom(steps, queue, request, agent, j, n); }
    }
    if step.Subscribe? && step.queue == queue && Strip(step.request) == request && Strip(step.agent) == agent {
      assert SubscribedFrom(steps, queue, request, agent, n, |steps|);
    }
    if j: nat :| SubscribedFrom(steps, queue, request, agent, j, n) {
      if !(step.Subscribe? && step.queue == queue)
         && !(step.Unsubscribe? && step.queue == queue && Strip(step.request) == request && Strip(step.agent) == agent) {
        assert SubscribedFrom(steps, queue, request, agent, j, |steps|);
      }
    }
  }

  lemma {:induction false} SubscriptionMeaning<Q>(steps: seq<Step<Q>>, queue: Q, request: string, agent: string)
    ensures Subscription(steps, queue) == Some(Key(request, agent)) <==> IsSubscribed(steps, queue, request, agent, |steps|)
  {
    if steps != [] {
      var n := |steps| - 1;
      SubscriptionMeaning(steps[..n], queue, request, agent);
      SubscribedUpTo(steps, queue, request, agent);
      SubscribedNext(steps, queue, request, agent);
    }
  }

  lemma SubscribedUpTo<Q>(steps: seq<Step<Q>>, queue: Q, request: string, agent: string)
    requires steps != []
    ensures IsSubscribed(steps[..|steps| - 1], queue, request, agent, |steps| - 1)
       <==> IsSubscribed(steps, queue, request, agent, |steps| - 1)
  {
    SubscribedBefore(steps, queue, request, agent, |steps| - 1);
  }

  /** The event names a request and an agent, and the queue is subscribed under these names when
      the i-th step begins. */
  ghost predicate IsFor<Q>(steps: seq<Step<Q>>, queue: Q, e: Event, show: Json -> string, i: nat) {
    var request := Strip(if "request_id" in e then TextOf(e["request_id"], show) else "");
    var agent := Strip(if "agent_id" in e then TextOf(e["agent_id"], show) else "");
    request != "" && agent != "" && IsSubscribed(steps, queue, request, agent, i)
  }

  /** The event pushed for the queue by the i-th step, if there is one. */
  ghost function HeardIn<Q>(steps: seq<Step<Q>>, queue: Q, show: Json -> string, i: nat): seq<Event>
    requires i < |steps|
  {
    if steps[i].PushDevelopers? && IsFor(steps, queue, steps[i].event, show, i) then [steps[i].event] else []
  }

  /** The events pushed for the queue by the first n steps. */
  ghost function HeardBy<Q>(steps: seq<Step<Q>>, queue: Q, show: Json -> string, n: nat): seq<Event>
    requires n <= |steps|
  {
    if n == 0 then [] else HeardBy(steps, queue, show, n - 1) + HeardIn(steps, queue, show, n - 1)
  }

  lemma HeardInBefore<Q>(steps: seq<Step<Q>>, queue: Q, show: Json -> string, i: nat)
    requires i < |steps| - 1
    ensures HeardIn(steps[..|steps| - 1], queue, show, i) == HeardIn(steps, queue, show, i)
  {
    if steps[i].PushDevelopers? {
      var e := steps[i].event;
      var request := Strip(if "request_id" in e then TextOf(e["request_id"], show) else "");
      var agent := Strip(if "agent_id" in e then TextOf(e["agent_id"], show) else "");
      SubscribedBefore(steps, queue, request, agent, i);
    }
  }

  lemma {:induction false} HeardBefore<Q>(steps: seq<Step<Q>>, before: seq<Step<Q>>, queue: Q, show: Json -> string, n: nat)
    requires n < |steps| && before == steps[..|steps| - 1]
    ensures HeardBy(before, queue, show, n) == HeardBy(steps, queue, show, n)
  {
    if n > 0 {
      HeardBefore(steps, before, queue, show, n - 1);
      HeardInBefore(steps, queue, show, n - 1);
    }
  }

  lemma HearsMeaning<Q>(steps: seq<Step<Q>>, queue: Q, e: Event, show: Json -> string)
    requires steps != []
    ensures Hears(Subscription(steps[..|steps| - 1], queue), e, show) <==> IsFor(steps, queue, e, show, |steps| - 1)
  {
    var request := Strip(if "request_id" in e then TextOf(e["request_id"], show) else "");
    var agent := Strip(if "agent_id" in e then TextOf(e["agent_id"], show) else "");
    assert EventKey(e, show) == Key(request, agent);
    SubscriptionMeaning(steps[..|steps| - 1], queue, request, agent);
    SubscribedUpTo(steps, queue, request, agent);
  }

  lemma {:induction false} NothingHeardYet<Q>(steps: seq<Step<Q>>, queue: Q, show: Json -> string)
    requires FreshQueues(steps, show) && queue !in Run(steps, show).queues
    ensures HeardBy(steps, queue, show, |steps|) == [] && Subscription(steps, queue).None?
  {
    if steps != [] {
      var n := |steps| - 1;
      FreshBefore(steps, show);
      NothingHeardYet(steps[..n], queue, show);
      HeardBefore(steps, steps[..n], queue, show, n);
      if steps[n].PushDevelopers? { HearsMeaning(steps, queue, steps[n].event, show); }
    }
  }

  lemma {:induction false} HistoryIsHeard<Q>(steps: seq<Step<Q>>, queue: Q, show: Json -> string)
    requires FreshQueues(steps, show)
    ensures History(DeveloperOps(steps, queue, show)) == HeardBy(steps, queue, show, |steps|)
  {
    if steps != [] {
      var n := |steps| - 1;
      var ops := DeveloperOps(steps[..n], queue, show);
      FreshBefore(steps, show);
      HistoryIsHeard(steps[..n], queue, show);
      HeardBefore(steps, steps[..n], queue, show, n);
      match steps[n] {
        case PushDevelopers(event) =>
          HearsMeaning(steps, queue, event, show);
          HistoryAfter(ops, Put(event));
        case ReadDeveloper(_) => HistoryAfter(ops, Take);
        case Subscribe(_, _, q) => if q == queue { NothingHeardYet(steps[..n], queue, show); }
        case _ =>
      }
    }
  }

  /** In every run a developer's queue holds the newest of exactly the events that name, up to
      blanks around them, the request and the agent it is subscribed for when they are pushed, and
      never more than 20. */
  lemma DeveloperHears<Q>(steps: seq<Step<Q>>, queue: Q, show: Json -> string)
    requires FreshQueues(steps, show) && queue in Run(steps, show).queues
    ensures var held, heard := Run(steps, show).queues[queue], HeardBy(steps, queue, show, |steps|);
            |held| <= 20 && |held| <= |heard| && held == heard[|heard| - |held|..]
  {
    DeveloperQueueIsSuffix(steps, queue, show);
    HistoryIsHeard(steps, queue, show);
  }

  ghost predicate Opened<Q>(steps: seq<Step<Q>>, user: string, n: nat) {
    exists j :: 0 <= j < n && j < |steps| && steps[j] == OpenOwner(user)
  }

  /** The events pushed for a user by the first n steps, from when the user's queue was first
      asked for. */
  ghost function PushedFor<Q>(steps: seq<Step<Q>>, user: string, n: nat): seq<Event>
    requires n <= |steps|
  {
    if n == 0 then []
    else
      var step := steps[n - 1];
      PushedFor(steps, user, n - 1)
      + (if step.PushOwner? && step.user == user && Opened(steps, user, n - 1) then [step.event] else [])
  }

  lemma OpenedBefore<Q>(steps: seq<Step<Q>>, before: seq<Step<Q>>, user: string, n: nat)
    requires n < |steps| && before == steps[..|steps| - 1]
    ensures Opened(before, user, n) <==> Opened(steps, user, n)
  {
    if j :| 0 <= j < n && steps[j] == OpenOwner(user) { assert before[j] == steps[j]; }
    if j :| 0 <= j < n && j < |before| && before[j] == OpenOwner(user) { assert before[j] == steps[j]; }
  }

  lemma OpenedNext<Q>(steps: seq<Step<Q>>, user: string)
    requires steps != []
    ensures Opened(steps, user, |steps|)
       <==> Opened(steps[..|steps| - 1], user, |steps| - 1) || steps[|steps| - 1] == OpenOwner(user)
  {
    var n := |steps| - 1;
    OpenedBefore(steps, steps[..n], user, n);
    if Opened(steps, user, |steps|) {
      var j :| 0 <= j < |steps| && steps[j] == OpenOwner(user);
      if j < n { assert Opened(steps, user, n); }
    }
  }

  lemma {:induction false} PushedBefore<Q>(steps: seq<Step<Q>>, before: seq<Step<Q>>, user: string, n: nat)
    requires n < |steps| && before == steps[..|steps| - 1]
    ensures PushedFor(before, user, n) == PushedFor(steps, user, n)
  {
    if n > 0 {
      PushedBefore(steps, before, user, n - 1);
      OpenedBefore(steps, before, user, n - 1);
    }
  }

  /** What a user's history and the events pushed for the user have in common at every step. */
  ghost predicate SameHistory(ops: Option<seq<QueueOp>>, asked: bool, pushed: seq<Event>) {
    && (ops.Some? <==> asked)
    && pushed == if ops.Some? then History(ops.value) else []
  }

  lemma SameHistoryNext<Q>(ops: Option<seq<QueueOp>>, asked: bool, pushed: seq<Event>, step: Step<Q>, user: string)
    requires SameHistory(ops, asked, pushed)
    ensures SameHistory(NextOwnerOps(ops, step, user), asked || step == OpenOwner(user),
                        pushed + (if step.PushOwner? && step.user == user && asked then [step.event] else []))
  {
    if ops.Some? {
      HistoryAfter(ops.value, Take);
      if step.PushOwner? { HistoryAfter(ops.value, Put(step.event)); }
    }
  }

  lemma {:induction false} OwnerHistory<Q>(steps: seq<Step<Q>>, user: string)
    ensures SameHistory(OwnerOps(steps, user), Opened(steps, user, |steps|), PushedFor(steps, user, |steps|))
  {
    if steps != [] {
      var n := |steps| - 1;
      OwnerHistory(steps[..n], user);
      PushedBefore(steps, steps[..n], user, n);
      OpenedBefore(steps, steps[..n], user, n);
      OpenedNext(steps, user);
      SameHistoryNext(OwnerOps(steps[..n], user), Opened(steps, user, n), PushedFor(steps, user, n), steps[n], user);
    }
  }

  /** In every run a user has a queue exactly once it was asked for, and it holds the newest of the
      events pushed for the user since then, never more than 100. */
  lemma OwnerHears<Q>(steps: seq<Step<Q>>, user: string, show: Json -> string)
    ensures user in Run(steps, show).owners <==> Opened(steps, user, |steps|)
    ensures user in Run(steps, show).owners ==>
              var held, heard := Run(steps, show).owners[user], PushedFor(steps, user, |steps|);
              |held| <= 100 && |held| <= |heard| && held == heard[|heard| - |held|..]
  {
    OwnerQueueMeaning(steps, user, show);
    OwnerHistory(steps, user);
    if user in Run(steps, show).owners { OwnerQueueIsSuffix(steps, user, show); }
  }

  // ------------------------------------------------------------------
  // The module's own state, updated in place
  // ------------------------------------------------------------------

  /** asyncio.Queue(maxsize) */
  class BoundedQueue {
    const maxSize: nat
    var items: seq<Event>

    constructor (maxSize: nat)
      ensures items == [] && this.maxSize == maxSize
    {
      this.maxSize, items := maxSize, [];
    }

    /** put_nowait: false stands for QueueFull. */
    method PutNoWait(e: Event) returns (ok: bool)
      modifies this
      ensures ok <==> old(|items|) < maxSize
      ensures items == if ok then old(items) + [e] else old(items)
    {
      ok := |items| < maxSize;
      if ok { items := items + [e]; }
    }

    /** get_nowait: None stands for QueueEmpty. */
    method GetNoWait() returns (e: Option<Event>)
      modifies this
      ensures items == AfterTake(old(items))
      ensures e == if old(items) == [] then None else Some(old(items)[0])
    {
      if items == [] { return None; }
      e := Some(items[0]);
      items := items[1..];
    }

    /** The put both push functions make: on a full queue, drop the oldest and try again. */
    method PutNewest(e: Event)
      requires maxSize >= 1 && |items| <= maxSize
      modifies this
      ensures items == AfterPut(old(items), e, maxSize) && |items| <= maxSize
    {
      var ok := PutNoWait(e);
      if !ok {
        var oldest := GetNoWait();
        ok := PutNoWait(e);
      }
    }
  }

  class Listener {
    var owners: map<string, BoundedQueue>
    var subscribers: map<Key, set<BoundedQueue>>
    /** every developer queue ever handed out */
    ghost var handedOut: set<BoundedQueue>

    ghost predicate OwnersFit()
      reads this, owners.Values
    {
      && (forall u :: u in owners ==> owners[u] !in handedOut && owners[u].maxSize == OWNER_QUEUE_MAX
                                      && |owners[u].items| <= OWNER_QUEUE_MAX)
      && (forall u, v :: u in owners && v in owners && u != v ==> owners[u] != owners[v])
    }

    ghost predicate DevelopersFit()
      reads this, handedOut
    {
      && (forall q :: q in handedOut ==> q.maxSize == DEVELOPER_QUEUE_MAX && |q.items| <= DEVELOPER_QUEUE_MAX)
      && (forall key :: key in subscribers ==> subscribers[key] != {} && subscribers[key] <= handedOut)
    }

    ghost predicate Valid()
      reads this, owners.Values, handedOut
    {
      OwnersFit() && DevelopersFit()
    }

    ghost function OwnerItems(): map<string, seq<Event>>
      reads this, owners.Values
    {
      map u | u in owners :: owners[u].items
    }

    ghost function DeveloperItems(): map<BoundedQueue, seq<Event>>
      reads this, handedOut
    {
      map q | q in handedOut :: q.items
    }

    /** The abstract state the module's dictionaries stand for. */
    ghost function View(): State<BoundedQueue>
      reads this, owners.Values, handedOut
    {
      State(OwnerItems(), subscribers, DeveloperItems())
    }

    constructor ()
      ensures Valid() && View() == State(map[], map[], map[])
    {
      owners, subscribers, handedOut := map[], map[], {};
    }

    method GetConsentQueue(user: string, ghost show: Json -> string) returns (q: BoundedQueue)
      requires Valid()
      modifies this
      ensures Valid() && View() == Next(old(View()), OpenOwner(user), show)
      ensures user in owners && owners[user] == q
    {
      if user !in owners {
        var empty := new BoundedQueue(OWNER_QUEUE_MAX);
        owners := owners[user := empty];
        assert OwnerItems() == NextOwners<BoundedQueue>(old(OwnerItems()), OpenOwner(user));
      }
      assert DeveloperItems() == old(DeveloperItems());
      q := owners[user];
    }

    method PushToConsentQueue(user: string, data: Event, ghost show: Json -> string)
      requires Valid()
      modifies owners.Values
      ensures Valid() && View() == Next(old(View()), PushOwner(user, data), show)
    {
      if user !in owners { return; }
      owners[user].PutNewest(data);
      assert OwnerItems() == NextOwners<BoundedQueue>(old(OwnerItems()), PushOwner(user, data));
      assert DeveloperItems() == old(DeveloperItems());
    }

    method SubscribeDeveloper(request: string, agent: string, ghost show: Json -> string) returns (q: BoundedQueue)
      requires Valid()
      modifies this
      ensures fresh(q) && Valid() && View() == Next(old(View()), Subscribe(request, agent, q), show)
    {
      var key := KeyOf(request, agent);
      q := new BoundedQueue(DEVELOPER_QUEUE_MAX);
      var others := if key in subscribers then subscribers[key] else {};
      subscribers := subscribers[key := others + {q}];
      handedOut := handedOut + {q};
      assert OwnerItems() == old(OwnerItems());
      assert DeveloperItems() == old(DeveloperItems())[q := []];
    }

    method UnsubscribeDeveloper(request: string, agent: string, queue: BoundedQueue, ghost show: Json -> string)
      requires Valid()
      modifies this
      ensures Valid() && View() == Next(old(View()), Unsubscribe(request, agent, queue), show)
    {
      var key := KeyOf(request, agent);
      if key !in subscribers { return; }
      var queues := subscribers[key] - {queue};
      subscribers := if queues == {} then subscribers - {key} else subscribers[key := queues];
      assert OwnerItems() == old(OwnerItems());
      assert DeveloperItems() == old(DeveloperItems());
    }

    method PushToDevelopers(data: Event, show: Json -> string)
      requires Valid()
      modifies handedOut
      ensures Valid() && View() == Next(old(View()), PushDevelopers(data), show)
    {
      var key := EventKey(data, show);
      var queues: set<BoundedQueue> := {};
      if key.request != "" && key.agent != "" {
        queues := if key in subscribers then subscribers[key] else {};
      }
      PushTo(queues, data);
    }

    method PushTo(queues: set<BoundedQueue>, data: Event)
      requires Valid() && queues <= handedOut
      modifies handedOut
      ensures Valid() && OwnerItems() == old(OwnerItems())
      ensures DeveloperItems() == Pushed(old(DeveloperItems()), queues, data)
    {
      PutIntoAll(queues, handedOut, data);
      assert OwnerItems() == old(OwnerItems());
    }
  }

  /** The loop over a snapshot of the subscribers. */
  method PutIntoAll(queues: set<BoundedQueue>, ghost all: set<BoundedQueue>, data: Event)
    requires queues <= all
    requires forall q :: q in all ==> q.maxSize == DEVELOPER_QUEUE_MAX && |q.items| <= DEVELOPER_QUEUE_MAX
    modifies queues
    ensures forall q :: q in all ==> |q.items| <= DEVELOPER_QUEUE_MAX
    ensures forall q :: q in queues ==> q.items == AfterPut(old(q.items), data, DEVELOPER_QUEUE_MAX)
  {
    var rest := queues;
    while rest != {}
      invariant rest <= queues
      invariant forall q :: q in rest ==> q.items == old(q.items)
      invariant forall q :: q in queues - rest ==> q.items == AfterPut(old(q.items), data, DEVELOPER_QUEUE_MAX)
      decreases rest
    {
      var q :| q in rest;
      q.PutNewest(data);
      rest := rest - {q};
    }
  }
}
