/** The registries of the MQTT adapter: callbacks by index, and the topics subscribed to. */
module Adapters {
  // ---- Callback registry -----------------------------------------------------------------------------------------

  /** The counter of a registry and its live callbacks, by index. */
  datatype Registry = Registry(count: nat, live: map<int, nat>)

  const EMPTY_REGISTRY := Registry(0, map[])

  datatype RegistryOp = On(callback: nat) | Off(index: int)

  function RegistryStep(r: Registry, op: RegistryOp): Registry {
    match op
    case On(callback) => Registry(r.count + 1, r.live[r.count as int := callback])
    case Off(index) => Registry(r.count, r.live - {index})
  }

  function RegistryAfter(ops: seq<RegistryOp>): Registry
    decreases |ops|
  {
    if ops == [] then EMPTY_REGISTRY else RegistryStep(RegistryAfter(ops[..|ops| - 1]), ops[|ops| - 1])
  }

  /** How many registrations there are among the operations: the index that the next one gets. */
  function Registrations(ops: seq<RegistryOp>): nat
    decreases |ops|
  {
    if ops == [] then 0 else Registrations(ops[..|ops| - 1]) + if ops[|ops| - 1].On? then 1 else 0
  }

  /** The operation at position k registered the given index, and nothing has removed it since. */
  predicate Registered(ops: seq<RegistryOp>, k: nat, index: int) {
    && k < |ops| && ops[k].On? && Registrations(ops[..k]) == index
    && forall j :: k < j < |ops| ==> ops[j] != Off(index)
  }

  lemma RegisteredEarlier(ops: seq<RegistryOp>, k: nat, index: int)
    requires ops != [] && k < |ops| - 1
    ensures Registered(ops, k, index)
      <==> Registered(ops[..|ops| - 1], k, index) && ops[|ops| - 1] != Off(index)
  {
    assert ops[..|ops| - 1][..k] == ops[..k];
  }

  /** A live callback is a registration that no later operation removed. */
  ghost predicate LiveIsRegistered(ops: seq<RegistryOp>, index: int) {
    index in RegistryAfter(ops).live ==>
      && 0 <= index < RegistryAfter(ops).count
      && exists k: nat :: Registered(ops, k, index) && ops[k].callback == RegistryAfter(ops).live[index]
  }

  ghost predicate RegisteredIsLive(ops: seq<RegistryOp>, k: nat, index: int) {
    Registered(ops, k, index) ==>
      index in RegistryAfter(ops).live && RegistryAfter(ops).live[index] == ops[k].callback
  }

  /**
   Over any operations the counter is the number of registrations, so an index below it is never given out again, and
   the live callbacks are exactly the registrations that no later operation removed.
   */
  lemma {:induction false} LiveIsRegisteredMinusRemoved(ops: seq<RegistryOp>)
    ensures RegistryAfter(ops).count == Registrations(ops)
    ensures forall index :: LiveIsRegistered(ops, index)
    ensures forall k: nat, index :: RegisteredIsLive(ops, k, index)
    decreases |ops|
  {
    if ops != [] {
      var last := |ops| - 1;
      var before := ops[..last];
      LiveIsRegisteredMinusRemoved(before);
      forall index
        ensures LiveIsRegistered(ops, index)
      {
        LiveStep(ops, index);
      }
      forall k: nat, index
        ensures RegisteredIsLive(ops, k, index)
      {
        assert RegisteredIsLive(before, k, index);
        if k < last {
          RegisteredEarlier(ops, k, index);
          assert LiveIsRegistered(before, index);
        }
      }
    }
  }

  lemma LiveStep(ops: seq<RegistryOp>, index: int)
    requires ops != [] && LiveIsRegistered(ops[..|ops| - 1], index)
    requires RegistryAfter(ops[..|ops| - 1]).count == Registrations(ops[..|ops| - 1])
    ensures LiveIsRegistered(ops, index)
  {
    var last := |ops| - 1;
    var before := ops[..last];
    var r, r0 := RegistryAfter(ops), RegistryAfter(before);
    if index in r.live {
      if ops[last].On? && index == r0.count {
        assert Registered(ops, last, index);
      } else {
        var k: nat :| Registered(before, k, index) && before[k].callback == r0.live[index];
        RegisteredEarlier(ops, k, index);
      }
    }
  }

  /** Two registrations never share an index. */
  lemma {:induction false} IndicesAreNeverReused(ops: seq<RegistryOp>, j: nat, k: nat)
    requires j < k < |ops| && ops[j].On?
    ensures Registrations(ops[..j]) < Registrations(ops[..k])
    decreases k - j
  {
    assert ops[..k][..k - 1] == ops[..k - 1];
    if k - 1 > j {
      IndicesAreNeverReused(ops, j, k - 1);
    }
  }

  // ---- Subscriptions ---------------------------------------------------------------------------------------------

  datatype TopicOp = Subscribe(topics: seq<string>) | Unsubscribe(topic: string) | UnsubscribeAll

  function TopicStep(s: set<string>, op: TopicOp): set<string> {
    match op
    case Subscribe(topics) => s + set t | t in topics
    case Unsubscribe(topic) => s - {topic}
    case UnsubscribeAll => {}
  }

  /** The table after operations on a given one. */
  function TopicsFrom(s: set<string>, ops: seq<TopicOp>): set<string>
    decreases |ops|
  {
    if ops == [] then s else TopicStep(TopicsFrom(s, ops[..|ops| - 1]), ops[|ops| - 1])
  }

  function TopicsAfter(ops: seq<TopicOp>): set<string> {
    TopicsFrom({}, ops)
  }

  predicate Drops(op: TopicOp, topic: string) { op.UnsubscribeAll? || op == Unsubscribe(topic) }

  /** The request at position k subscribed to the topic, and none since has dropped it. */
  predicate Standing(ops: seq<TopicOp>, k: nat, topic: string) {
    && k < |ops| && ops[k].Subscribe? && topic in ops[k].topics
    && forall j :: k < j < |ops| ==> !Drops(ops[j], topic)
  }

  /** A topic is in the table exactly when some request subscribed to it and none since has dropped it. */
  lemma {:induction false} TableIsLastRequest(ops: seq<TopicOp>, topic: string)
    ensures topic in TopicsAfter(ops) <==> exists k: nat :: Standing(ops, k, topic)
    decreases |ops|
  {
    if ops != [] {
      var last := |ops| - 1;
      var before := ops[..last];
      TableIsLastRequest(before, topic);
      if k: nat :| Standing(ops, k, topic) {
        assert k == last || Standing(before, k, topic);
      }
      if topic in TopicsAfter(ops) {
        if ops[last].Subscribe? && topic in ops[last].topics {
          assert Standing(ops, last, topic);
        } else {
          var k: nat :| Standing(before, k, topic);
          assert Standing(ops, k, topic);
        }
      }
    }
  }

  lemma {:induction false} TopicsFromAppend(s: set<string>, a: seq<TopicOp>, b: seq<TopicOp>)
    ensures TopicsFrom(s, a + b) == TopicsFrom(TopicsFrom(s, a), b)
    decreases |b|
  {
    if b == [] {
      assert a + b == a;
    } else {
      assert (a + b)[..|a + b| - 1] == a + b[..|b| - 1];
      TopicsFromAppend(s, a, b[..|b| - 1]);
    }
  }

  predicate Subscribes(ops: seq<TopicOp>, topic: string) {
    exists k :: 0 <= k < |ops| && ops[k].Subscribe? && topic in ops[k].topics
  }

  /** What operations make of one topic depends on that topic alone, and only a subscription adds it. */
  lemma {:induction false} OneTopic(s: set<string>, s': set<string>, ops: seq<TopicOp>, topic: string)
    ensures (topic in s <==> topic in s') ==> (topic in TopicsFrom(s, ops) <==> topic in TopicsFrom(s', ops))
    ensures topic in TopicsFrom(s, ops) ==> topic in s || Subscribes(ops, topic)
    decreases |ops|
  {
    if ops != [] {
      OneTopic(s, s', ops[..|ops| - 1], topic);
    }
  }

  /** An operation on the adapter; Once is OnConnectOnce on a client found disconnected. */
  datatype AdapterOp =
    | ConnectOn(callback: nat, connected: bool)
    | ConnectOff(index: int)
    | Once(wrapper: nat, connectedMeanwhile: bool)
    | LostOn(callback: nat)
    | LostOff(index: int)
    | OnTopics(op: TopicOp)

  function ConnectStep(r: Registry, op: AdapterOp): Registry {
    match op
    case ConnectOn(callback, _) => RegistryStep(r, On(callback))
    case ConnectOff(index) => RegistryStep(r, Off(index))
    case Once(wrapper, meanwhile) => RegistryStep(if meanwhile then RegistryStep(r, Off(0)) else r, On(wrapper))
    case _ => r
  }

  function LostStep(r: Registry, op: AdapterOp): Registry {
    match op
    case LostOn(callback) => RegistryStep(r, On(callback))
    case LostOff(index) => RegistryStep(r, Off(index))
    case _ => r
  }

  // ---- The adapter -----------------------------------------------------------------------------------------------

  class MQTTClientAdapter {
    var onConnectCount: nat
    var onConnectCallbacks: map<int, nat>
    var onConnectLostCount: nat
    var onConnectLostCallbacks: map<int, nat>
    var subscribeMap: set<string>
    /** The callbacks run because the client was connected at registration. */
    var ran: seq<nat>

    function OnConnectRegistry(): Registry
      reads this
    {
      Registry(onConnectCount, onConnectCallbacks)
    }

    function OnConnectLostRegistry(): Registry
      reads this
    {
      Registry(onConnectLostCount, onConnectLostCallbacks)
    }

    constructor ()
      ensures OnConnectRegistry() == EMPTY_REGISTRY && OnConnectLostRegistry() == EMPTY_REGISTRY
      ensures subscribeMap == {} && ran == []
    {
      onConnectCount, onConnectCallbacks := 0, map[];
      onConnectLostCount, onConnectLostCallbacks := 0, map[];
      subscribeMap, ran := {}, [];
    }

    method OnConnect(callback: nat, connected: bool) returns (index: int)
      modifies this`onConnectCount, this`onConnectCallbacks, this`ran
      ensures OnConnectRegistry() == RegistryStep(old(OnConnectRegistry()), On(callback))
      ensures index == old(onConnectCount)
      ensures ran == old(ran) + if connected then [callback] else []
    {
      if connected {
        ran := ran + [callback];
      }
      index := onConnectCount;
      onConnectCount := onConnectCount + 1;
      onConnectCallbacks := onConnectCallbacks[index := callback];
    }

    method OffConnect(index: int)
      modifies this`onConnectCallbacks
      ensures OnConnectRegistry() == RegistryStep(old(OnConnectRegistry()), Off(index))
    {
      onConnectCallbacks := onConnectCallbacks - {index};
    }

    /**
     OnConnectOnce on a client found disconnected.  Its wrapper first removes the index held in subID, which is still
     zero if the connection comes up before OnConnect asks for it: then callback 0 is the one that is removed, and the
     wrapper itself stays.
     */
    method OnConnectOnceDisconnected(wrapper: nat, connectedMeanwhile: bool) returns (subID: int)
      modifies this`onConnectCount, this`onConnectCallbacks, this`ran
      ensures OnConnectRegistry() ==
        var r := if connectedMeanwhile then RegistryStep(old(OnConnectRegistry()), Off(0)) else old(OnConnectRegistry());
        RegistryStep(r, On(wrapper))
      ensures subID == old(onConnectCount)
    {
      subID := 0;
      if connectedMeanwhile {
        OffConnect(subID);
        ran := ran + [wrapper];
      }
      subID := OnConnect(wrapper, false);
    }

    method OnConnectLost(callback: nat) returns (index: int)
      modifies this`onConnectLostCount, this`onConnectLostCallbacks
      ensures OnConnectLostRegistry() == RegistryStep(old(OnConnectLostRegistry()), On(callback))
      ensures index == old(onConnectLostCount)
    {
      index := onConnectLostCount;
      onConnectLostCount := onConnectLostCount + 1;
      onConnectLostCallbacks := onConnectLostCallbacks[index := callback];
    }

    method OffConnectLost(index: int)
      modifies this`onConnectLostCallbacks
      ensures OnConnectLostRegistry() == RegistryStep(old(OnConnectLostRegistry()), Off(index))
    {
      onConnectLostCallbacks := onConnectLostCallbacks - {index};
    }

    method Subscribe(topic: string)
      modifies this`subscribeMap
      ensures subscribeMap == TopicStep(old(subscribeMap), TopicOp.Subscribe([topic]))
    {
      subscribeMap := subscribeMap + {topic};
    }

    method SubscribeMultiple(filters: seq<string>)
      modifies this`subscribeMap
      ensures subscribeMap == TopicStep(old(subscribeMap), TopicOp.Subscribe(filters))
    {
      for k := 0 to |filters|
        invariant subscribeMap == old(subscribeMap) + set t | t in filters[..k]
      {
        assert filters[..k + 1] == filters[..k] + [filters[k]];
        subscribeMap := subscribeMap + {filters[k]};
      }
      assert filters[..|filters|] == filters;
    }

    method Unsubscribe(topic: string)
      modifies this`subscribeMap
      ensures subscribeMap == TopicStep(old(subscribeMap), TopicOp.Unsubscribe(topic))
    {
      subscribeMap := subscribeMap - {topic};
    }

    method DeleteAll(topics: set<string>)
      modifies this`subscribeMap
      ensures subscribeMap == old(subscribeMap) - topics
    {
      var left := topics;
      while left != {}
        invariant left <= topics
        invariant subscribeMap == old(subscribeMap) - (topics - left)
        decreases |left|
      {
        var topic :| topic in left;
        left := left - {topic};
        subscribeMap := subscribeMap - {topic};
      }
    }

    /** Operations one after the other, each without interruption. */
    method Perform(ops: seq<TopicOp>)
      modifies this`subscribeMap
      ensures subscribeMap == TopicsFrom(old(subscribeMap), ops)
    {
      for k := 0 to |ops|
        invariant subscribeMap == TopicsFrom(old(subscribeMap), ops[..k])
      {
        assert ops[..k + 1][..k] == ops[..k];
        match ops[k] {
          case Subscribe(topics) => SubscribeMultiple(topics);
          case Unsubscribe(topic) => Unsubscribe(topic);
          case UnsubscribeAll => DeleteAll(subscribeMap);
        }
      }
      assert ops[..|ops|] == ops;
    }

    method Do(op: AdapterOp)
      modifies this
      ensures OnConnectRegistry() == ConnectStep(old(OnConnectRegistry()), op)
      ensures OnConnectLostRegistry() == LostStep(old(OnConnectLostRegistry()), op)
      ensures subscribeMap == if op.OnTopics? then TopicStep(old(subscribeMap), op.op) else old(subscribeMap)
    {
      match op {
        case ConnectOn(callback, connected) => var _ := OnConnect(callback, connected);
        case ConnectOff(index) => OffConnect(index);
        case Once(wrapper, meanwhile) => var _ := OnConnectOnceDisconnected(wrapper, meanwhile);
        case LostOn(callback) => var _ := OnConnectLost(callback);
        case LostOff(index) => OffConnectLost(index);
        case OnTopics(topicOp) =>
          Perform([topicOp]);
          assert [topicOp][..0] == [];
      }
    }

    /**
     UnsubscribeAll: the topics are collected first, and then deleted one by one, while others go on; between(k) is what
     they do before the deletion at k.  A topic that was not collected is in the table as their operations say; one that
     was collected is there only if it has been subscribed to since.
     */
    method UnsubscribeAll(between: nat -> seq<TopicOp>) returns (ghost performed: seq<TopicOp>)
      modifies this`subscribeMap
      ensures performed == Scheduled(between, |old(subscribeMap)| + 1)
      ensures forall t :: t !in old(subscribeMap) ==>
        (t in subscribeMap <==> t in TopicsFrom(old(subscribeMap), performed))
      ensures forall t :: t in old(subscribeMap) && t in subscribeMap ==> Subscribes(performed, t)
    {
      var left := subscribeMap;
      var k := 0;
      performed := between(0);
      Perform(between(0));
      assert Scheduled(between, 0) + between(0) == between(0);
      forall t | t !in old(subscribeMap)
        ensures t in subscribeMap <==> t in TopicsFrom(old(subscribeMap), performed)
      {
        OneTopic(old(subscribeMap), old(subscribeMap), performed, t);
      }
      while left != {}
        invariant left <= old(subscribeMap) && k + |left| == |old(subscribeMap)|
        invariant performed == Scheduled(between, k + 1)
        invariant forall t :: t !in old(subscribeMap) ==>
          (t in subscribeMap <==> t in TopicsFrom(old(subscribeMap), performed))
        invariant forall t :: t in old(subscribeMap) - left && t in subscribeMap ==> Subscribes(performed, t)
        decreases |left|
      {
        var topic :| topic in left;
        left := left - {topic};
        k := k + 1;
        subscribeMap := subscribeMap - {topic};
        ghost var before, earlier := subscribeMap, performed;
        Perform(between(k));
        performed := earlier + between(k);
        TopicsFromAppend(old(subscribeMap), earlier, between(k));
        forall t
          ensures t !in old(subscribeMap) ==>
            (t in subscribeMap <==> t in TopicsFrom(old(subscribeMap), performed))
          ensures t in old(subscribeMap) - left && t in subscribeMap ==> Subscribes(performed, t)
        {
          OneTopic(before, TopicsFrom(old(subscribeMap), earlier), between(k), t);
          SubscribesMore(earlier, between(k), t);
        }
      }
    }
  }

  /** The first operations of a schedule, in order. */
  function Scheduled(between: nat -> seq<TopicOp>, n: nat): seq<TopicOp> {
    if n == 0 then [] else Scheduled(between, n - 1) + between(n - 1)
  }

  lemma SubscribesMore(a: seq<TopicOp>, b: seq<TopicOp>, topic: string)
    ensures Subscribes(a, topic) || Subscribes(b, topic) ==> Subscribes(a + b, topic)
  {
    if k :| 0 <= k < |a| && a[k].Subscribe? && topic in a[k].topics {
      assert (a + b)[k] == a[k];
    }
    if k :| 0 <= k < |b| && b[k].Subscribe? && topic in b[k].topics {
      assert (a + b)[|a| + k] == b[k];
    }
  }

  // ---- Whole histories -------------------------------------------------------------------------------------------

  function ConnectOps(ops: seq<AdapterOp>): seq<RegistryOp>
    decreases |ops|
  {
    if ops == [] then []
    else
      ConnectOps(ops[..|ops| - 1]) +
      match ops[|ops| - 1]
      case ConnectOn(callback, _) => [On(callback)]
      case ConnectOff(index) => [Off(index)]
      case Once(wrapper, meanwhile) => if meanwhile then [Off(0), On(wrapper)] else [On(wrapper)]
      case _ => []
  }

  function LostOps(ops: seq<AdapterOp>): seq<RegistryOp>
    decreases |ops|
  {
    if ops == [] then []
    else
      LostOps(ops[..|ops| - 1]) +
      match ops[|ops| - 1]
      case LostOn(callback) => [On(callback)]
      case LostOff(index) => [Off(index)]
      case _ => []
  }

  function TopicOps(ops: seq<AdapterOp>): seq<TopicOp>
    decreases |ops|
  {
    if ops == [] then []
    else TopicOps(ops[..|ops| - 1]) + if ops[|ops| - 1].OnTopics? then [ops[|ops| - 1].op] else []
  }

  lemma RegistryAppend(ops: seq<RegistryOp>, op: RegistryOp)
    ensures RegistryAfter(ops + [op]) == RegistryStep(RegistryAfter(ops), op)
  {
    assert (ops + [op])[..|ops|] == ops;
  }

  lemma ConnectHistory(ops: seq<AdapterOp>, op: AdapterOp)
    ensures RegistryAfter(ConnectOps(ops + [op])) == ConnectStep(RegistryAfter(ConnectOps(ops)), op)
  {
    assert (ops + [op])[..|ops|] == ops;
    var connects := ConnectOps(ops);
    match op {
      case ConnectOn(callback, _) => RegistryAppend(connects, On(callback));
      case ConnectOff(index) => RegistryAppend(connects, Off(index));
      case Once(wrapper, meanwhile) =>
        if meanwhile {
          RegistryAppend(connects, Off(0));
          RegistryAppend(connects + [Off(0)], On(wrapper));
          assert connects + [Off(0), On(wrapper)] == connects + [Off(0)] + [On(wrapper)];
        } else {
          RegistryAppend(connects, On(wrapper));
        }
      case _ => assert connects + [] == connects;
    }
  }

  lemma LostHistory(ops: seq<AdapterOp>, op: AdapterOp)
    ensures RegistryAfter(LostOps(ops + [op])) == LostStep(RegistryAfter(LostOps(ops)), op)
  {
    assert (ops + [op])[..|ops|] == ops;
    match op {
      case LostOn(callback) => RegistryAppend(LostOps(ops), On(callback));
      case LostOff(index) => RegistryAppend(LostOps(ops), Off(index));
      case _ => assert LostOps(ops) + [] == LostOps(ops);
    }
  }

  lemma TopicHistory(ops: seq<AdapterOp>, op: AdapterOp)
    ensures TopicsAfter(TopicOps(ops + [op])) ==
      if op.OnTopics? then TopicStep(TopicsAfter(TopicOps(ops)), op.op) else TopicsAfter(TopicOps(ops))
  {
    assert (ops + [op])[..|ops|] == ops;
    if op.OnTopics? {
      assert (TopicOps(ops) + [op.op])[..|TopicOps(ops)|] == TopicOps(ops);
    } else {
      assert TopicOps(ops) + [] == TopicOps(ops);
    }
  }

  /** Any history of operations on one adapter: both registries and the table are what the operations on each make. */
  method RunHistory(ops: seq<AdapterOp>) returns (connect: Registry, lost: Registry, topics: set<string>)
    ensures connect == RegistryAfter(ConnectOps(ops))
    ensures lost == RegistryAfter(LostOps(ops))
    ensures topics == TopicsAfter(TopicOps(ops))
  {
    var adapter := new MQTTClientAdapter();
    for k := 0 to |ops|
      invariant adapter.OnConnectRegistry() == RegistryAfter(ConnectOps(ops[..k]))
      invariant adapter.OnConnectLostRegistry() == RegistryAfter(LostOps(ops[..k]))
      invariant adapter.subscribeMap == TopicsAfter(TopicOps(ops[..k]))
    {
      assert ops[..k + 1] == ops[..k] + [ops[k]];
      ConnectHistory(ops[..k], ops[k]);
      LostHistory(ops[..k], ops[k]);
      TopicHistory(ops[..k], ops[k]);
      adapter.Do(ops[k]);
    }
    assert ops[..|ops|] == ops;
    connect, lost, topics := adapter.OnConnectRegistry(), adapter.OnConnectLostRegistry(), adapter.subscribeMap;
  }

  /** The race in OnConnectOnce removes another callback exactly when index 0 is live. */
  lemma OnceMayRemoveAnother(r: Registry, wrapper: nat)
    requires forall index :: index in r.live ==> 0 <= index < r.count
    ensures
      var after := RegistryStep(RegistryStep(r, Off(0)), On(wrapper));
      && after.live[r.count as int] == wrapper
      && (r.live == after.live - {r.count as int} <==> 0 !in r.live)
  {
    var after := RegistryStep(RegistryStep(r, Off(0)), On(wrapper));
    assert after.live - {r.count as int} == r.live - {0};
    if 0 !in r.live {
      assert r.live - {0} == r.live;
    }
  }

  // ---- Client Calls on one adapter -------------------------------------------------------------------------------

  /** The part of an adapter that connections use; a callback of a connection subscribes to its response topic. */
  datatype Adapter = Adapter(registry: Registry, topics: set<string>)

  /** NewConn registers its callback, which runs at once on a connected client; Close unsubscribes, and no more. */
  function CallOpened(a: Adapter, topicOf: nat -> string, callback: nat): Adapter {
    Adapter(RegistryStep(a.registry, On(callback)), TopicStep(a.topics, TopicOp.Subscribe([topicOf(callback)])))
  }

  function CallFinished(a: Adapter, topicOf: nat -> string, callback: nat): Adapter {
    var open := CallOpened(a, topicOf, callback);
    open.(topics := TopicStep(open.topics, TopicOp.Unsubscribe(topicOf(callback))))
  }

  /** While a Call is open its response topic is in the table, and no other topic has changed. */
  lemma OpenCallIsSubscribed(a: Adapter, topicOf: nat -> string, callback: nat)
    ensures CallOpened(a, topicOf, callback).topics == a.topics + {topicOf(callback)}
    ensures CallFinished(a, topicOf, callback).registry == CallOpened(a, topicOf, callback).registry
  {
  }

  /** That many Calls, one after the other, with the callbacks 0, 1, 2 and so on. */
  function AfterCalls(a: Adapter, topicOf: nat -> string, calls: nat): Adapter
    decreases calls
  {
    if calls == 0 then a else CallFinished(AfterCalls(a, topicOf, calls - 1), topicOf, calls - 1)
  }

  /** The handler of a new connection runs every live callback. */
  function Reconnected(a: Adapter, topicOf: nat -> string): Adapter {
    a.(topics := a.topics + set i | i in a.registry.live :: topicOf(a.registry.live[i]))
  }

  /** Indices below the counter, as LiveIsRegisteredMinusRemoved says of every registry. */
  predicate BelowCounter(r: Registry) { forall index :: index in r.live ==> 0 <= index < r.count }

  /** The callback of Call k is live, at its own index. */
  predicate CalledAt(a: Adapter, after: Adapter, k: nat) {
    var index := (a.registry.count + k) as int;
    index in after.registry.live && after.registry.live[index] == k
  }

  lemma RegistrationAddsOne(r: Registry, callback: nat)
    requires BelowCounter(r)
    ensures
      var r' := RegistryStep(r, On(callback));
      && BelowCounter(r') && |r'.live| == |r.live| + 1 && r'.live[r.count as int] == callback
      && forall index :: index in r.live ==> index in r'.live && r'.live[index] == r.live[index]
  {
    var r' := RegistryStep(r, On(callback));
    assert r'.live.Keys == r.live.Keys + {r.count as int};
  }

  lemma {:induction false} CallbacksStay(a: Adapter, topicOf: nat -> string, calls: nat)
    requires BelowCounter(a.registry)
    ensures
      var after := AfterCalls(a, topicOf, calls);
      && BelowCounter(after.registry) && after.registry.count == a.registry.count + calls
      && |after.registry.live| == |a.registry.live| + calls
    decreases calls
  {
    if calls > 0 {
      CallbacksStay(a, topicOf, calls - 1);
      RegistrationAddsOne(AfterCalls(a, topicOf, calls - 1).registry, calls - 1);
    }
  }

  lemma {:induction false} CallbackOfCall(a: Adapter, topicOf: nat -> string, calls: nat, k: nat)
    requires BelowCounter(a.registry) && k < calls
    ensures CalledAt(a, AfterCalls(a, topicOf, calls), k)
    decreases calls
  {
    CallbacksStay(a, topicOf, calls - 1);
    if k < calls - 1 {
      CallbackOfCall(a, topicOf, calls - 1, k);
    }
  }

  lemma {:induction false} TopicsGo(a: Adapter, topicOf: nat -> string, calls: nat)
    ensures AfterCalls(a, topicOf, calls).topics == a.topics - set k: nat | k < calls :: topicOf(k)
    decreases calls
  {
    if calls > 0 {
      TopicsGo(a, topicOf, calls - 1);
      var gone := set k: nat | k < calls - 1 :: topicOf(k);
      assert (set k: nat | k < calls :: topicOf(k)) == gone + {topicOf(calls - 1)};
    }
  }

  /**
   Finished Calls leave nothing in the table of topics, but each leaves its callback in the registry, and the next
   connection subscribes to all their response topics again.
   */
  lemma FinishedCallsComeBack(a: Adapter, topicOf: nat -> string, calls: nat)
    requires BelowCounter(a.registry)
    ensures
      var after := AfterCalls(a, topicOf, calls);
      && |after.registry.live| == |a.registry.live| + calls
      && (forall k: nat :: k < calls ==> topicOf(k) !in after.topics)
      && (forall k: nat :: k < calls ==> topicOf(k) in Reconnected(after, topicOf).topics)
  {
    var after := AfterCalls(a, topicOf, calls);
    CallbacksStay(a, topicOf, calls);
    TopicsGo(a, topicOf, calls);
    forall k: nat | k < calls
      ensures topicOf(k) in Reconnected(after, topicOf).topics && topicOf(k) !in after.topics
    {
      CallbackOfCall(a, topicOf, calls, k);
    }
  }
}
