/**
 * The free functions of the `rcl_like_wrapper` C API.
 *
 * Every object crosses the API as an integer handle in which 0 stands for the
 * null pointer. Each function first rejects a null handle (logging it) and only
 * then forwards to the object behind the handle. What the object does is not
 * modelled: a forwarded void call is reported as a `Call`, and where the object
 * answers with a value (a count, a created publisher) that answer is a parameter.
 */
module RclLikeWrapper {
  import opened Wrappers

  /** An object pointer passed through the API as an integer. */
  type Handle = int

  /** The handle of the null pointer. */
  const Null: Handle := 0

  /** The operations the void free functions forward to the object behind a handle. */
  datatype Op = Spin | SpinOnce | SpinSome | StopSpin | Publish

  /** One call that crossed from the API into a node or publisher object. */
  datatype Call = Call(op: Op, target: Handle)

  /**
   * `spin`, `spin_once`, `spin_some`, `stop_spin` (on a node) and `publish`
   * (on a publisher): a null handle is logged and nothing is called; any other
   * handle receives exactly the requested operation.
   */
  function Forward(target: Handle, op: Op): (r: Option<Call>)
    ensures r == None <==> target == Null
    ensures r.Some? ==> r.value.target == target && r.value.op == op
  {
    if target == Null then None else Some(Call(op, target))
  }

  /** `get_subscriber_count`: 0 for a null publisher, otherwise what the publisher reports. */
  function SubscriberCount(publisher: Handle, reported: int): (r: int)
    ensures publisher == Null ==> r == 0
    ensures publisher != Null ==> r == reported
  {
    if publisher == Null then 0 else reported
  }

  /** `get_publisher_count`: 0 for a null subscriber, otherwise what the subscriber reports. */
  function PublisherCount(subscriber: Handle, reported: int): (r: int)
    ensures subscriber == Null ==> r == 0
    ensures subscriber != Null ==> r == reported
  {
    if subscriber == Null then 0 else reported
  }

  /**
   * `create_timer`: 0 for a null node; otherwise the timer the node created,
   * which is 0 exactly when the node failed to create it.
   */
  function CreateTimer(node: Handle, created: Handle): (r: Handle)
    ensures r != Null <==> node != Null && created != Null
    ensures r != Null ==> r == created
  {
    if node == Null then Null else created
  }

  /** A registered message type: the transport's type-support object it wraps. */
  datatype MessageType = MessageType(typeSupport: Handle)

  /** The table of registered message types, keyed by type name. */
  type TypeTable = map<string, MessageType>

  /**
   * The table after registering `types` into `table`: every name of `types`
   * is present afterwards, a name that was already present keeps its first
   * registration, and nothing else is added or changed.
   */
  function Registered(table: TypeTable, types: TypeTable): (r: TypeTable)
    ensures r.Keys == table.Keys + types.Keys
    ensures forall name :: name in table ==> r[name] == table[name]
    ensures forall name :: name in types && name !in table ==> r[name] == types[name]
  {
    types + table
  }

  /** Registering the same types twice changes nothing the second time. */
  lemma RegisteredIdempotent(table: TypeTable, types: TypeTable)
    ensures Registered(Registered(table, types), types) == Registered(table, types)
  {
  }

  /**
   * Registration never overrides: across two calls, a name registered by the
   * first keeps the first call's type, whatever the second call passes.
   */
  lemma RegisteredFirstWins(table: TypeTable, first: TypeTable, second: TypeTable, name: string)
    requires name in first && name !in table
    ensures Registered(Registered(table, first), second)[name] == first[name]
  {
  }

  /** The prefix the wrapper puts in front of every user topic name. */
  const TopicPrefix: string := "rt/"

  /**
   * The transport topic for a user topic: the prefix followed by the user's
   * name, from which the user's name can be read back.
   */
  function TransportTopic(topic: string): (r: string)
    ensures |r| == |TopicPrefix| + |topic|
    ensures r[..|TopicPrefix|] == TopicPrefix
    ensures r[|TopicPrefix|..] == topic
  {
    TopicPrefix + topic
  }

  /** Two user topics share a transport topic only if they are the same topic. */
  lemma TransportTopicInjective(a: string, b: string)
    requires TransportTopic(a) == TransportTopic(b)
    ensures a == b
  {
    assert a == TransportTopic(a)[|TopicPrefix|..];
  }

  /** What `create_publisher` or `create_subscription` asks the node to create. */
  datatype Endpoint =
    | PublisherEndpoint(node: Handle, messageType: MessageType, topic: string)
    | SubscriptionEndpoint(node: Handle, messageType: MessageType, topic: string, callback: Handle)

  /**
   * The request `create_publisher` makes of the node: none for a null node or
   * an unregistered type name; otherwise the registered type and the prefixed topic.
   */
  function PublisherRequest(table: TypeTable, node: Handle, typeName: string, topic: string): (r: Option<Endpoint>)
    ensures r.Some? <==> node != Null && typeName in table
    ensures r.Some? ==> r.value == PublisherEndpoint(node, table[typeName], TransportTopic(topic))
  {
    if node == Null || typeName !in table then None
    else Some(PublisherEndpoint(node, table[typeName], TransportTopic(topic)))
  }

  /**
   * `create_publisher`: 0 when the node handle is null, when the type name is
   * unknown, or when the node returns no publisher (`created` is what the node
   * returns if asked); otherwise the node's publisher.
   */
  function CreatePublisher(table: TypeTable, node: Handle, typeName: string, topic: string, created: Handle): (r: Handle)
    ensures r != Null <==> node != Null && typeName in table && created != Null
    ensures r != Null ==> r == created
  {
    if PublisherRequest(table, node, typeName, topic).None? then Null else created
  }

  /**
   * The request `create_subscription` makes of the node: none for a null node
   * or an unregistered type name; otherwise the registered type, the prefixed
   * topic and the user callback.
   */
  function SubscriptionRequest(table: TypeTable, node: Handle, typeName: string, topic: string, callback: Handle): (r: Option<Endpoint>)
    ensures r.Some? <==> node != Null && typeName in table
    ensures r.Some? ==> r.value == SubscriptionEndpoint(node, table[typeName], TransportTopic(topic), callback)
  {
    if node == Null || typeName !in table then None
    else Some(SubscriptionEndpoint(node, table[typeName], TransportTopic(topic), callback))
  }

  /**
   * `create_subscription`: 0 when the node handle is null, when the type name
   * is unknown, or when the node returns no subscriber; otherwise the node's
   * subscriber.
   */
  function CreateSubscription(table: TypeTable, node: Handle, typeName: string, topic: string, callback: Handle, created: Handle): (r: Handle)
    ensures r != Null <==> node != Null && typeName in table && created != Null
    ensures r != Null ==> r == created
  {
    if SubscriptionRequest(table, node, typeName, topic, callback).None? then Null else created
  }

  /**
   * Once a type has been registered, creating a publisher of that type on a
   * valid node reaches the node, with the type that was registered first.
   */
  lemma RegisteredTypeReachesNode(table: TypeTable, types: TypeTable, node: Handle, typeName: string, topic: string)
    requires node != Null && typeName in types
    ensures PublisherRequest(Registered(table, types), node, typeName, topic).Some?
    ensures PublisherRequest(Registered(table, types), node, typeName, topic).value.messageType
         == if typeName in table then table[typeName] else types[typeName]
  {
  }

  /** The global table of message types. */
  class Registry {
    var messageTypes: TypeTable

    constructor ()
      ensures messageTypes == map[]
    {
      messageTypes := map[];
    }

    /**
     * `rcl_like_wrapper_init`: visits each given type and inserts it only when
     * its name is not registered yet.
     */
    method Init(types: TypeTable)
      modifies this
      ensures messageTypes == Registered(old(messageTypes), types)
    {
      var remaining := types.Keys;
      while remaining != {}
        invariant remaining <= types.Keys
        invariant messageTypes == Registered(old(messageTypes), map name | name in types.Keys - remaining :: types[name])
        decreases remaining
      {
        var name :| name in remaining;
        ghost var visited := map n | n in types.Keys - remaining :: types[n];
        if name !in messageTypes {
          messageTypes := messageTypes[name := types[name]];
        }
        remaining := remaining - {name};
        assert (map n | n in types.Keys - remaining :: types[n]) == visited[name := types[name]];
      }
      assert (map n | n in types.Keys - remaining :: types[n]) == types;
    }
  }
}
