/** The gateway's RPC service: what it validates, normalises and publishes. */
module RpcService {
  import opened Network
  import opened Wrappers
  import opened Text
  import opened RouteDb
  import opened RouteHistory
  import opened Push
  import Store = UserRouteStore

  datatype Status = InvalidArgument(what: string) | Internal

  // ----- Push and close requests -----

  datatype PushRequest =
    | SendToUsersRequest(userIds: seq<string>, methodName: string, payload: Bytes)
    | SendToConnectionsRequest(connectionIds: seq<string>, methodName: string, payload: Bytes)
    | SendToGroupRequest(group: string, methodName: string, payload: Bytes)
    | BroadcastRequest(methodName: string, payload: Bytes)
    | CloseUsersRequest(userIds: seq<string>)
    | CloseConnectionsRequest(connectionIds: seq<string>)

  const EMPTY_EVENT := PushEvent(Unspecified, [], "", "", [], [])

  /** Validation and normalisation of the six push and close RPCs. */
  function EventFor(req: PushRequest): Result<PushEvent, Status> {
    match req
    case SendToUsersRequest(ids, m, payload) =>
      if TrimSpace(m) == "" then Err(InvalidArgument("method is required"))
      else if Compact(ids) == [] then Err(InvalidArgument("user_ids is required"))
      else Ok(EMPTY_EVENT.(target := Users, userIds := Compact(ids), methodName := TrimSpace(m), payload := payload))
    case SendToConnectionsRequest(ids, m, payload) =>
      if TrimSpace(m) == "" then Err(InvalidArgument("method is required"))
      else if Compact(ids) == [] then Err(InvalidArgument("connection_ids is required"))
      else Ok(EMPTY_EVENT.(target := Connections, connectionIds := Compact(ids), methodName := TrimSpace(m),
                           payload := payload))
    case SendToGroupRequest(group, m, payload) =>
      if TrimSpace(m) == "" then Err(InvalidArgument("method is required"))
      else if TrimSpace(group) == "" then Err(InvalidArgument("group is required"))
      else Ok(EMPTY_EVENT.(target := Group, group := TrimSpace(group), methodName := TrimSpace(m), payload := payload))
    case BroadcastRequest(m, payload) =>
      if TrimSpace(m) == "" then Err(InvalidArgument("method is required"))
      else Ok(EMPTY_EVENT.(target := Broadcast, methodName := TrimSpace(m), payload := payload))
    case CloseUsersRequest(ids) =>
      if Compact(ids) == [] then Err(InvalidArgument("user_ids is required"))
      else Ok(EMPTY_EVENT.(target := CloseUsers, userIds := Compact(ids)))
    case CloseConnectionsRequest(ids) =>
      if Compact(ids) == [] then Err(InvalidArgument("connection_ids is required"))
      else Ok(EMPTY_EVENT.(target := CloseConnections, connectionIds := Compact(ids)))
  }

  /** What a push or close RPC answers, and what it puts on the wire: nothing for a request that
      is rejected, one message for one that is accepted. */
  function Answer(codec: Codec, channels: PushChannels, req: PushRequest, fault: Fault)
    : (Option<Status>, seq<Message>)
  {
    match EventFor(req)
    case Err(rejected) => (Some(rejected), [])
    case Ok(event) => Outcome(codec, channels, event, fault)
  }

  function Outcome(codec: Codec, channels: PushChannels, event: PushEvent, fault: Fault)
    : (Option<Status>, seq<Message>)
  {
    match MessageFor(codec, channels, event)
    case Err(_) => (Some(Internal), [])
    case Ok(message) =>
      (if fault.Delivered? then None else Some(Internal), if fault.RequestLost? then [] else [message])
  }

  class GatewayService {
    const publisher: Publisher
    const connectionStore: Store.UserRouteStore

    constructor (publisher: Publisher, connectionStore: Store.UserRouteStore)
      ensures this.publisher == publisher && this.connectionStore == connectionStore
    {
      this.publisher := publisher;
      this.connectionStore := connectionStore;
    }

    method PublishEvent(event: PushEvent, fault: Fault) returns (status: Option<Status>)
      modifies publisher.redis`published
      ensures var (answer, messages) := Outcome(publisher.codec, publisher.channels, event, fault);
              status == answer && publisher.redis.published == old(publisher.redis.published) + messages
    {
      var err := publisher.Publish(Some(event), fault);
      status := if err == None then None else Some(Internal);
    }

    method SendToUsers(req: Option<PushRequest>, fault: Fault) returns (status: Option<Status>)
      requires req.Some? ==> req.value.SendToUsersRequest?
      modifies publisher.redis`published
      ensures req == None ==> status == Some(InvalidArgument("request is required")) && unchanged(publisher.redis)
      ensures req.Some? ==>
                var (answer, messages) := Answer(publisher.codec, publisher.channels, req.value, fault);
                status == answer && publisher.redis.published == old(publisher.redis.published) + messages
    {
      if req == None {
        return Some(InvalidArgument("request is required"));
      }
      if TrimSpace(req.value.methodName) == "" {
        return Some(InvalidArgument("method is required"));
      }
      var userIDs := CompactStrings(req.value.userIds);
      if |userIDs| == 0 {
        return Some(InvalidArgument("user_ids is required"));
      }
      status := PublishEvent(PushEvent(PushTarget.Users, userIDs, "", TrimSpace(req.value.methodName),
                                       req.value.payload, []), fault);
    }

    method SendToConnections(req: Option<PushRequest>, fault: Fault) returns (status: Option<Status>)
      requires req.Some? ==> req.value.SendToConnectionsRequest?
      modifies publisher.redis`published
      ensures req == None ==> status == Some(InvalidArgument("request is required")) && unchanged(publisher.redis)
      ensures req.Some? ==>
                var (answer, messages) := Answer(publisher.codec, publisher.channels, req.value, fault);
                status == answer && publisher.redis.published == old(publisher.redis.published) + messages
    {
      if req == None {
        return Some(InvalidArgument("request is required"));
      }
      if TrimSpace(req.value.methodName) == "" {
        return Some(InvalidArgument("method is required"));
      }
      var connectionIDs := CompactStrings(req.value.connectionIds);
      if |connectionIDs| == 0 {
        return Some(InvalidArgument("connection_ids is required"));
      }
      status := PublishEvent(PushEvent(PushTarget.Connections, [], "", TrimSpace(req.value.methodName),
                                       req.value.payload, connectionIDs), fault);
    }

    method SendToGroup(req: Option<PushRequest>, fault: Fault) returns (status: Option<Status>)
      requires req.Some? ==> req.value.SendToGroupRequest?
      modifies publisher.redis`published
      ensures req == None ==> status == Some(InvalidArgument("request is required")) && unchanged(publisher.redis)
      ensures req.Some? ==>
                var (answer, messages) := Answer(publisher.codec, publisher.channels, req.value, fault);
                status == answer && publisher.redis.published == old(publisher.redis.published) + messages
    {
      if req == None {
        return Some(InvalidArgument("request is required"));
      }
      if TrimSpace(req.value.methodName) == "" {
        return Some(InvalidArgument("method is required"));
      }
      var group := TrimSpace(req.value.group);
      if group == "" {
        return Some(InvalidArgument("group is required"));
      }
      status := PublishEvent(PushEvent(PushTarget.Group, [], group, TrimSpace(req.value.methodName),
                                       req.value.payload, []), fault);
    }

    method Broadcast(req: Option<PushRequest>, fault: Fault) returns (status: Option<Status>)
      requires req.Some? ==> req.value.BroadcastRequest?
      modifies publisher.redis`published
      ensures req == None ==> status == Some(InvalidArgument("request is required")) && unchanged(publisher.redis)
      ensures req.Some? ==>
                var (answer, messages) := Answer(publisher.codec, publisher.channels, req.value, fault);
                status == answer && publisher.redis.published == old(publisher.redis.published) + messages
    {
      if req == None {
        return Some(InvalidArgument("request is required"));
      }
      if TrimSpace(req.value.methodName) == "" {
        return Some(InvalidArgument("method is required"));
      }
      status := PublishEvent(PushEvent(PushTarget.Broadcast, [], "", TrimSpace(req.value.methodName),
                                       req.value.payload, []), fault);
    }

    method CloseUsers(req: Option<PushRequest>, fault: Fault) returns (status: Option<Status>)
      requires req.Some? ==> req.value.CloseUsersRequest?
      modifies publisher.redis`published
      ensures req == None ==> status == Some(InvalidArgument("request is required")) && unchanged(publisher.redis)
      ensures req.Some? ==>
                var (answer, messages) := Answer(publisher.codec, publisher.channels, req.value, fault);
                status == answer && publisher.redis.published == old(publisher.redis.published) + messages
    {
      if req == None {
        return Some(InvalidArgument("request is required"));
      }
      var userIDs := CompactStrings(req.value.userIds);
      if |userIDs| == 0 {
        return Some(InvalidArgument("user_ids is required"));
      }
      status := PublishEvent(PushEvent(PushTarget.CloseUsers, userIDs, "", "", [], []), fault);
    }

    method CloseConnections(req: Option<PushRequest>, fault: Fault) returns (status: Option<Status>)
      requires req.Some? ==> req.value.CloseConnectionsRequest?
      modifies publisher.redis`published
      ensures req == None ==> status == Some(InvalidArgument("request is required")) && unchanged(publisher.redis)
      ensures req.Some? ==>
                var (answer, messages) := Answer(publisher.codec, publisher.channels, req.value, fault);
                status == answer && publisher.redis.published == old(publisher.redis.published) + messages
    {
      if req == None {
        return Some(InvalidArgument("request is required"));
      }
      var connectionIDs := CompactStrings(req.value.connectionIds);
      if |connectionIDs| == 0 {
        return Some(InvalidArgument("connection_ids is required"));
      }
      status := PublishEvent(PushEvent(PushTarget.CloseConnections, [], "", "", [], connectionIDs), fault);
    }

    /** The response lists, in order of connection id, exactly the connections the history of the
        shared registry says are still leased. */
    method GetUserConnections(userID: Option<string>, fault: Fault)
      returns (connections: seq<Store.UserConnectionRoute>, status: Option<Status>)
      requires connectionStore.Valid()
      ensures userID == None ==> status == Some(InvalidArgument("request is required"))
      ensures userID.Some? && TrimSpace(userID.value) == "" ==> status == Some(InvalidArgument("user_id is required"))
      ensures userID.Some? && TrimSpace(userID.value) != "" ==>
                status == if fault.Delivered? then None else Some(Internal)
      ensures status.Some? ==> connections == []
      ensures status == None ==>
                && Store.SortedByConnection(connections)
                && forall c, s :: Store.UserConnectionRoute(c, s) in connections <==>
                     && Clean(c)
                     && Connected(connectionStore.redis.dep, connectionStore.redis.history,
                                  TrimSpace(userID.value), c, s)
    {
      connections := [];
      if userID == None {
        return [], Some(InvalidArgument("request is required"));
      }
      var user := TrimSpace(userID.value);
      if user == "" {
        return [], Some(InvalidArgument("user_id is required"));
      }
      TrimSpaceTrims(userID.value);
      TrimSpaceTrims(user);
      var routes, err := connectionStore.ListUserConnections(user, fault);
      if err.Some? {
        return [], Some(Internal);
      }
      for i := 0 to |routes|
        invariant connections == routes[..i]
      {
        connections := connections + [Store.UserConnectionRoute(routes[i].connectionID, routes[i].serverID)];
      }
      status := None;
    }
  }
}
