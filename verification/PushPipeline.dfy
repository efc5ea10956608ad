/** What the service validates and what the dispatcher validates again always agree. */
module PushPipeline {
  import opened Network
  import opened Wrappers
  import opened Text
  import opened Push
  import opened RpcService

  /** Some character is not white space. */
  ghost predicate NotBlank(s: string) {
    exists i :: 0 <= i < |s| && !IsSpace(s[i])
  }

  ghost predicate SomeNotBlank(values: seq<string>) {
    exists i :: 0 <= i < |values| && NotBlank(values[i])
  }

  /** What a request must hold: a method to send, and somebody to address. */
  ghost predicate Acceptable(req: PushRequest) {
    match req
    case SendToUsersRequest(ids, m, _) => NotBlank(m) && SomeNotBlank(ids)
    case SendToConnectionsRequest(ids, m, _) => NotBlank(m) && SomeNotBlank(ids)
    case SendToGroupRequest(group, m, _) => NotBlank(m) && NotBlank(group)
    case BroadcastRequest(m, _) => NotBlank(m)
    case CloseUsersRequest(ids) => SomeNotBlank(ids)
    case CloseConnectionsRequest(ids) => SomeNotBlank(ids)
  }

  /** The sender call a request asks for: its ids, group, method and payload, normalised once. */
  function Intended(req: PushRequest): Call {
    match req
    case SendToUsersRequest(ids, m, payload) => SendUsersRaw(Compact(ids), TrimSpace(m), payload)
    case SendToConnectionsRequest(ids, m, payload) => SendConnectionsRaw(Compact(ids), TrimSpace(m), payload)
    case SendToGroupRequest(group, m, payload) => SendGroupRaw(TrimSpace(group), TrimSpace(m), payload)
    case BroadcastRequest(m, payload) => SendAllRaw(TrimSpace(m), payload)
    case CloseUsersRequest(ids) => CloseUsersCall(Compact(ids))
    case CloseConnectionsRequest(ids) => CloseConnectionsCall(Compact(ids))
  }

  lemma NotBlankTrims(s: string)
    ensures TrimSpace(s) != "" <==> NotBlank(s)
  {
    BlankIffAllSpace(s);
  }

  lemma {:induction false} SomeNotBlankCompacts(values: seq<string>)
    ensures Compact(values) != [] <==> SomeNotBlank(values)
  {
    forall i | 0 <= i < |values| ensures NotBlank(values[i]) <==> TrimSpace(values[i]) != "" {
      NotBlankTrims(values[i]);
    }
    if Compact(values) != [] {
      CompactMembers(values, Compact(values)[0]);
    }
    if SomeNotBlank(values) {
      var i :| 0 <= i < |values| && NotBlank(values[i]);
      CompactMembers(values, TrimSpace(values[i]));
    }
  }

  /** A request is accepted exactly when it holds what it must. */
  lemma AcceptedIff(req: PushRequest)
    ensures EventFor(req).Ok? <==> Acceptable(req)
  {
    hide TrimSpace, Compact, NotBlank, SomeNotBlank;
    if !req.CloseUsersRequest? && !req.CloseConnectionsRequest? { NotBlankTrims(req.methodName); }
    if req.SendToGroupRequest? { NotBlankTrims(req.group); }
    if req.SendToUsersRequest? || req.CloseUsersRequest? { SomeNotBlankCompacts(req.userIds); }
    if req.SendToConnectionsRequest? || req.CloseConnectionsRequest? { SomeNotBlankCompacts(req.connectionIds); }
  }

  /** What an event must hold, whoever published it: a known target and what that target needs. */
  ghost predicate Deliverable(event: PushEvent) {
    match event.target
    case Users => NotBlank(event.methodName) && SomeNotBlank(event.userIds)
    case Connections => NotBlank(event.methodName) && SomeNotBlank(event.connectionIds)
    case CloseUsers => SomeNotBlank(event.userIds)
    case CloseConnections => SomeNotBlank(event.connectionIds)
    case Group => NotBlank(event.methodName) && NotBlank(event.group)
    case Broadcast => NotBlank(event.methodName)
    case _ => false
  }

  /** The dispatcher makes a call for exactly the events that hold what they must. */
  lemma DispatchedIff(event: PushEvent)
    ensures CallFor(event).Ok? <==> Deliverable(event)
  {
    hide TrimSpace, Compact, NotBlank, SomeNotBlank;
    NotBlankTrims(event.methodName);
    NotBlankTrims(event.group);
    SomeNotBlankCompacts(event.userIds);
    SomeNotBlankCompacts(event.connectionIds);
  }

  /** Push agreement: the event of an accepted request passes the dispatcher and becomes exactly
      the call the request asked for. */
  lemma DispatcherAgrees(req: PushRequest)
    requires EventFor(req).Ok?
    ensures CallFor(EventFor(req).value) == Ok(Intended(req))
  {
    hide TrimSpace, Compact, Trimmed;
    if !req.CloseUsersRequest? && !req.CloseConnectionsRequest? {
      TrimSpaceTrims(req.methodName);
      TrimSpaceTrims(TrimSpace(req.methodName));
    }
    if req.SendToGroupRequest? {
      TrimSpaceTrims(req.group);
      TrimSpaceTrims(TrimSpace(req.group));
    }
    if req.SendToUsersRequest? || req.CloseUsersRequest? { CompactIdempotent(req.userIds); }
    if req.SendToConnectionsRequest? || req.CloseConnectionsRequest? { CompactIdempotent(req.connectionIds); }
  }

  /** An accepted request always has a channel. */
  lemma AcceptedHasChannel(req: PushRequest, channels: PushChannels)
    requires EventFor(req).Ok?
    ensures EventFor(req).value.target != Unspecified
    ensures channels.ChannelForTarget(EventFor(req).value.target).Ok?
  {
  }

  /** One RPC, and what the network does to its publish. */
  datatype Rpc = Rpc(request: PushRequest, fault: Fault)

  /** The messages that a list of RPCs leaves on the wire, in order. */
  function Wire(codec: Codec, channels: PushChannels, rpcs: seq<Rpc>): seq<Message> {
    if rpcs == [] then []
    else Answer(codec, channels, rpcs[0].request, rpcs[0].fault).1 + Wire(codec, channels, rpcs[1..])
  }

  /** The request is acceptable and protobuf can encode its event. */
  ghost predicate Sendable(codec: Codec, req: PushRequest) {
    Acceptable(req) && EventFor(req).Ok? && codec.marshal(EventFor(req).value).Some?
  }

  /** The calls that the sendable ones among the requests ask for, as far as the publish reached
      Redis, whether or not its reply came back. */
  ghost function IntendedCalls(codec: Codec, rpcs: seq<Rpc>): seq<Call> {
    if rpcs == [] then []
    else (if Sendable(codec, rpcs[0].request) && !rpcs[0].fault.RequestLost? then [Intended(rpcs[0].request)] else [])
         + IntendedCalls(codec, rpcs[1..])
  }

  /** What an RPC answers and publishes: it refuses exactly the requests that are not acceptable,
      it succeeds exactly for sendable ones whose publish is confirmed, and it publishes one
      message for every sendable one whose publish arrives, also when it then answers an error. */
  lemma AnswerSpec(codec: Codec, channels: PushChannels, req: PushRequest, fault: Fault)
    ensures var (answer, messages) := Answer(codec, channels, req, fault);
            && (answer.Some? && answer.value.InvalidArgument? <==> !Acceptable(req))
            && (answer == None <==> Sendable(codec, req) && fault.Delivered?)
            && |messages| == if Sendable(codec, req) && !fault.RequestLost? then 1 else 0
  {
    AcceptedIff(req);
    if EventFor(req).Ok? {
      AcceptedHasChannel(req, channels);
    } else {
      RefusalsAreInvalidArgument(req);
    }
    hide EventFor, Acceptable;
  }

  /** The channel each kind of request belongs on. */
  function ChannelOf(channels: PushChannels, req: PushRequest): string {
    match req
    case SendToUsersRequest(_, _, _) => channels.users
    case SendToConnectionsRequest(_, _, _) => channels.users
    case CloseUsersRequest(_) => channels.users
    case CloseConnectionsRequest(_) => channels.users
    case SendToGroupRequest(_, _, _) => channels.group
    case BroadcastRequest(_, _) => channels.broadcast
  }

  /** What each RPC puts on the wire, for every request, configuration and network outcome: at most
      one message, on the channel of its kind, that decodes to the request's event. */
  lemma TravelsOn(codec: Codec, channels: PushChannels, req: PushRequest, fault: Fault)
    requires Faithful(codec)
    ensures var messages := Answer(codec, channels, req, fault).1;
            && |messages| <= 1
            && forall message :: message in messages ==>
                 && message.channel == ChannelOf(channels, req)
                 && EventFor(req).Ok? && codec.unmarshal(message.payload) == Some(EventFor(req).value)
  {
    if EventFor(req).Ok? {
      MessageForSpec(codec, channels, EventFor(req).value);
      TargetOf(req);
    }
    hide EventFor, MessageFor;
  }

  lemma TargetOf(req: PushRequest)
    requires EventFor(req).Ok?
    ensures EventFor(req).value.target == match req
                                          case SendToUsersRequest(_, _, _) => PushTarget.Users
                                          case SendToConnectionsRequest(_, _, _) => PushTarget.Connections
                                          case SendToGroupRequest(_, _, _) => PushTarget.Group
                                          case BroadcastRequest(_, _) => PushTarget.Broadcast
                                          case CloseUsersRequest(_) => PushTarget.CloseUsers
                                          case CloseConnectionsRequest(_) => PushTarget.CloseConnections
  {
    hide TrimSpace, Compact;
  }

  /** Which part of a request is missing decides the refusal, the method before the addressees. */
  lemma RefusalNames(req: PushRequest)
    ensures EventFor(req) == Err(InvalidArgument("method is required")) <==>
              !req.CloseUsersRequest? && !req.CloseConnectionsRequest? && !NotBlank(req.methodName)
    ensures EventFor(req) == Err(InvalidArgument("user_ids is required")) <==>
              && (req.CloseUsersRequest? || (req.SendToUsersRequest? && NotBlank(req.methodName)))
              && !SomeNotBlank(req.userIds)
    ensures EventFor(req) == Err(InvalidArgument("connection_ids is required")) <==>
              && (req.CloseConnectionsRequest? || (req.SendToConnectionsRequest? && NotBlank(req.methodName)))
              && !SomeNotBlank(req.connectionIds)
    ensures EventFor(req) == Err(InvalidArgument("group is required")) <==>
              req.SendToGroupRequest? && NotBlank(req.methodName) && !NotBlank(req.group)
  {
    TextsDiffer();
    hide TrimSpace, Compact, NotBlank, SomeNotBlank;
    if !req.CloseUsersRequest? && !req.CloseConnectionsRequest? { NotBlankTrims(req.methodName); }
    if req.SendToGroupRequest? { NotBlankTrims(req.group); }
    if req.SendToUsersRequest? || req.CloseUsersRequest? { SomeNotBlankCompacts(req.userIds); }
    if req.SendToConnectionsRequest? || req.CloseConnectionsRequest? { SomeNotBlankCompacts(req.connectionIds); }
  }

  lemma TextsDiffer()
    ensures "method is required" != "user_ids is required" && "method is required" != "connection_ids is required"
    ensures "method is required" != "group is required" && "user_ids is required" != "connection_ids is required"
    ensures "user_ids is required" != "group is required" && "connection_ids is required" != "group is required"
  {
    assert "method is required"[0] == 'm' && "user_ids is required"[0] == 'u';
    assert "connection_ids is required"[0] == 'c' && "group is required"[0] == 'g';
  }

  /** What an accepted request publishes is already normalised: every id and the group and the
      method trimmed and not blank, the ids exactly those some given id trims to, in order. */
  lemma EventIsNormalised(req: PushRequest)
    requires EventFor(req).Ok?
    ensures var event := EventFor(req).value;
            && (!req.CloseUsersRequest? && !req.CloseConnectionsRequest? ==>
                  && Clean(event.methodName) && event.methodName == TrimSpace(req.methodName)
                  && event.payload == req.payload)
            && (req.CloseUsersRequest? || req.CloseConnectionsRequest? ==>
                  event.methodName == "" && event.payload == [])
            && event.group == (if req.SendToGroupRequest? then TrimSpace(req.group) else "")
            && event.userIds == (if req.SendToUsersRequest? || req.CloseUsersRequest? then Compact(req.userIds) else [])
            && event.connectionIds == (if req.SendToConnectionsRequest? || req.CloseConnectionsRequest?
                                       then Compact(req.connectionIds) else [])
            && (forall id :: id in event.userIds + event.connectionIds ==> Clean(id))
  {
    if !req.CloseUsersRequest? && !req.CloseConnectionsRequest? { TrimSpaceTrims(req.methodName); }
    forall id ensures req.SendToUsersRequest? || req.CloseUsersRequest? ==> (id in Compact(req.userIds) ==> Clean(id))
              ensures req.SendToConnectionsRequest? || req.CloseConnectionsRequest? ==>
                        (id in Compact(req.connectionIds) ==> Clean(id))
    {
      if req.SendToUsersRequest? || req.CloseUsersRequest? { CompactMembers(req.userIds, id); }
      if req.SendToConnectionsRequest? || req.CloseConnectionsRequest? { CompactMembers(req.connectionIds, id); }
    }
    hide TrimSpace, Compact;
  }

  /** The request an event stands for, if its target is a known one. */
  function RequestOf(event: PushEvent): Option<PushRequest> {
    match event.target
    case Users => Some(SendToUsersRequest(event.userIds, event.methodName, event.payload))
    case Connections => Some(SendToConnectionsRequest(event.connectionIds, event.methodName, event.payload))
    case Group => Some(SendToGroupRequest(event.group, event.methodName, event.payload))
    case Broadcast => Some(BroadcastRequest(event.methodName, event.payload))
    case CloseUsers => Some(CloseUsersRequest(event.userIds))
    case CloseConnections => Some(CloseConnectionsRequest(event.connectionIds))
    case _ => None
  }

  /** Dispatching any event, also one that no RPC of this gateway made: it becomes the call its
      request asks for, or is refused for what that request lacks, or for its target. */
  lemma DispatchesAsRequested(event: PushEvent)
    ensures match RequestOf(event)
            case None => CallFor(event) == Err(UnknownTarget)
            case Some(req) =>
              && (Acceptable(req) ==> CallFor(event) == Ok(Intended(req)))
              && (!req.CloseUsersRequest? && !req.CloseConnectionsRequest? && !NotBlank(event.methodName) ==>
                    CallFor(event) == Err(MethodRequired))
              && (req.SendToUsersRequest? && NotBlank(event.methodName) && !SomeNotBlank(event.userIds) ==>
                    CallFor(event) == Err(UserIdsRequired))
              && (req.CloseUsersRequest? && !SomeNotBlank(event.userIds) ==> CallFor(event) == Err(UserIdsRequired))
              && (req.SendToConnectionsRequest? && NotBlank(event.methodName) && !SomeNotBlank(event.connectionIds) ==>
                    CallFor(event) == Err(ConnectionIdsRequired))
              && (req.CloseConnectionsRequest? && !SomeNotBlank(event.connectionIds) ==>
                    CallFor(event) == Err(ConnectionIdsRequired))
              && (req.SendToGroupRequest? && NotBlank(event.methodName) && !NotBlank(event.group) ==>
                    CallFor(event) == Err(GroupRequired))
  {
    hide TrimSpace, Compact, NotBlank, SomeNotBlank;
    NotBlankTrims(event.methodName);
    NotBlankTrims(event.group);
    SomeNotBlankCompacts(event.userIds);
    SomeNotBlankCompacts(event.connectionIds);
  }

  lemma RefusalsAreInvalidArgument(req: PushRequest)
    ensures EventFor(req).Err? ==> EventFor(req).error.InvalidArgument?
  {
    hide TrimSpace, Compact;
  }

  function ReceivedAll(messages: seq<Message>): seq<Received> {
    seq(|messages|, i requires 0 <= i < |messages| => Got(messages[i]))
  }

  /** A stream that carries the first `n` of these messages before it ends or its first terminal
      error comes, with any number of bad messages, nil messages and recoverable errors in
      between. What it holds after a terminal error does not matter. */
  ghost predicate Carries(codec: Codec, stream: seq<Received>, messages: seq<Message>, n: nat)
    requires n <= |messages|
  {
    if stream == [] || stream[0].Terminal? then n == 0
    else if n > 0 && stream[0] == Got(messages[0]) then Carries(codec, stream[1..], messages[1..], n - 1)
    else EventOf(codec, stream[0]) == None && Carries(codec, stream[1..], messages, n)
  }

  lemma {:induction false} NoiseIsIgnored(codec: Codec, stream: seq<Received>, messages: seq<Message>, n: nat)
    requires n <= |messages| && Carries(codec, stream, messages, n)
    ensures Dispatched(codec, stream) == Dispatched(codec, ReceivedAll(messages[..n]))
  {
    hide EventOf;
    if stream == [] || stream[0].Terminal? {
      assert messages[..0] == [];
    } else if n > 0 && stream[0] == Got(messages[0]) {
      NoiseIsIgnored(codec, stream[1..], messages[1..], n - 1);
      assert messages[..n][1..] == messages[1..][..n - 1];
      assert ReceivedAll(messages[..n])[1..] == ReceivedAll(messages[..n][1..]);
    } else {
      NoiseIsIgnored(codec, stream[1..], messages, n);
      assert [] + Dispatched(codec, stream[1..]) == Dispatched(codec, stream[1..]);
    }
  }

  /** On arrival the message decodes to an event that the dispatcher turns into the call. */
  ghost predicate Becomes(codec: Codec, message: Message, call: Call) {
    var event := EventOf(codec, Got(message));
    event.Some? && CallFor(event.value) == Ok(call)
  }

  ghost predicate AllBecome(codec: Codec, messages: seq<Message>, calls: seq<Call>) {
    |messages| == |calls| && forall i :: 0 <= i < |messages| ==> Becomes(codec, messages[i], calls[i])
  }

  lemma {:induction false} DispatchedCalls(codec: Codec, messages: seq<Message>, calls: seq<Call>)
    requires AllBecome(codec, messages, calls)
    ensures CallsOf(Dispatched(codec, ReceivedAll(messages))) == calls
  {
    if messages != [] {
      var stream := ReceivedAll(messages);
      assert Becomes(codec, messages[0], calls[0]);
      hide EventOf, CallFor;
      DispatchedCalls(codec, messages[1..], calls[1..]);
      assert stream[1..] == ReceivedAll(messages[1..]);
      var event := EventOf(codec, stream[0]).value;
      assert Dispatched(codec, stream) == [event] + Dispatched(codec, stream[1..]);
      assert ([event] + Dispatched(codec, stream[1..]))[1..] == Dispatched(codec, stream[1..]);
      hide AllBecome, Dispatched;
      assert calls == [calls[0]] + calls[1..];
    }
  }

  /** One RPC's message, if it leaves one, becomes the call the request asks for. */
  lemma RpcDelivers(codec: Codec, channels: PushChannels, rpc: Rpc)
    requires Faithful(codec)
    ensures AllBecome(codec, Answer(codec, channels, rpc.request, rpc.fault).1,
                      if Sendable(codec, rpc.request) && !rpc.fault.RequestLost? then [Intended(rpc.request)] else [])
  {
    var req := rpc.request;
    AcceptedIff(req);
    if EventFor(req).Ok? {
      var event := EventFor(req).value;
      AcceptedHasChannel(req, channels);
      DispatcherAgrees(req);
      if codec.marshal(event).Some? { PublishedIsReceivable(codec, channels, event); }
    }
    hide EventFor, CallFor, Intended, Acceptable, EventOf;
  }

  lemma AllBecomeAppend(codec: Codec, m1: seq<Message>, c1: seq<Call>, m2: seq<Message>, c2: seq<Call>)
    requires AllBecome(codec, m1, c1) && AllBecome(codec, m2, c2)
    ensures AllBecome(codec, m1 + m2, c1 + c2)
  {
    hide Becomes;
  }

  lemma {:induction false} WireDelivers(codec: Codec, channels: PushChannels, rpcs: seq<Rpc>)
    requires Faithful(codec)
    ensures AllBecome(codec, Wire(codec, channels, rpcs), IntendedCalls(codec, rpcs))
  {
    if rpcs != [] {
      hide AllBecome, Answer, Sendable, Intended;
      var call := if Sendable(codec, rpcs[0].request) && !rpcs[0].fault.RequestLost?
                  then [Intended(rpcs[0].request)] else [];
      RpcDelivers(codec, channels, rpcs[0]);
      WireDelivers(codec, channels, rpcs[1..]);
      AllBecomeAppend(codec, Answer(codec, channels, rpcs[0].request, rpcs[0].fault).1, call,
                      Wire(codec, channels, rpcs[1..]), IntendedCalls(codec, rpcs[1..]));
    }
  }

  /** End to end. For every list of RPCs, every channel configuration, and every stream that
      carries the first `n` messages they published before it ends or breaks, whatever else is in
      it, the subscriber makes exactly the first `n` calls that the sendable requests asked for,
      in order; and each message travels on a channel it has subscribed to. */
  lemma {:induction false} PipelineDelivers(codec: Codec, channels: PushChannels, rpcs: seq<Rpc>,
                                            stream: seq<Received>, n: nat)
    requires Faithful(codec) && channels.AllClean()
    requires n <= |Wire(codec, channels, rpcs)| && Carries(codec, stream, Wire(codec, channels, rpcs), n)
    ensures |IntendedCalls(codec, rpcs)| == |Wire(codec, channels, rpcs)|
    ensures CallsOf(Dispatched(codec, stream)) == IntendedCalls(codec, rpcs)[..n]
    ensures forall i :: 0 <= i < |Wire(codec, channels, rpcs)| ==>
                          Wire(codec, channels, rpcs)[i].channel in Unique(channels.List())
  {
    var messages, calls := Wire(codec, channels, rpcs), IntendedCalls(codec, rpcs);
    hide Becomes, Dispatched, CallsOf, Carries, Wire, IntendedCalls, Faithful, Unique;
    NoiseIsIgnored(codec, stream, messages, n);
    WireDelivers(codec, channels, rpcs);
    DispatchedCalls(codec, messages[..n], calls[..n]);
    WireOnChannels(codec, channels, rpcs);
  }

  /** An RPC that answers Internal because the reply to its publish was lost is delivered all the
      same, as soon as its message arrives. */
  lemma {:induction false} FailedYetDelivered(codec: Codec, channels: PushChannels, req: PushRequest, message: Message,
                           stream: seq<Received>)
    requires Faithful(codec) && channels.AllClean()
    requires Answer(codec, channels, req, ReplyLost).1 == [message] && Carries(codec, stream, [message], 1)
    ensures Answer(codec, channels, req, ReplyLost).0 == Some(Internal)
    ensures CallsOf(Dispatched(codec, stream)) == [Intended(req)]
  {
    var rpcs := [Rpc(req, ReplyLost)];
    assert rpcs[1..] == [];
    assert Wire(codec, channels, rpcs) == [message];
    AnswerSpec(codec, channels, req, ReplyLost);
    hide Answer, Sendable, Intended, Wire, Carries, Dispatched, CallsOf;
    PipelineDelivers(codec, channels, rpcs, stream, 1);
  }

  lemma {:induction false} WireOnChannels(codec: Codec, channels: PushChannels, rpcs: seq<Rpc>)
    requires channels.AllClean()
    ensures forall i :: 0 <= i < |Wire(codec, channels, rpcs)| ==>
                          Wire(codec, channels, rpcs)[i].channel in Unique(channels.List())
  {
    SubscribedToEveryTarget(channels);
    hide EventFor, Unique;
    if rpcs != [] {
      WireOnChannels(codec, channels, rpcs[1..]);
    }
  }
}
