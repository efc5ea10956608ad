/** Cluster push: the event, the channel it travels on, and the subscriber that hands it to the
    local sender. */
module Push {
  import opened Network
  import opened Wrappers
  import opened Text

  type Bytes = seq<bv8>

  datatype PushTarget =
    | Unspecified
    | Users
    | Group
    | Broadcast
    | Connections
    | CloseUsers
    | CloseConnections
    | Unknown(number: int)

  datatype PushEvent = PushEvent(target: PushTarget, userIds: seq<string>, group: string, methodName: string,
                                 payload: Bytes, connectionIds: seq<string>)

  datatype Error =
    | UsersChannelRequired
    | GroupChannelRequired
    | BroadcastChannelRequired
    | EventRequired
    | UnknownTarget
    | MarshalFailed
    | PublishFailed
    | MethodRequired
    | UserIdsRequired
    | ConnectionIdsRequired
    | GroupRequired
    | SendFailed

  // ----- Channels -----

  datatype PushChannels = PushChannels(users: string, group: string, broadcast: string) {
    function List(): seq<string> {
      Compact([users, group, broadcast])
    }

    function ChannelForTarget(target: PushTarget): Result<string, Error> {
      match target
      case Users => Ok(users)
      case Connections => Ok(users)
      case CloseUsers => Ok(users)
      case CloseConnections => Ok(users)
      case Group => Ok(group)
      case Broadcast => Ok(broadcast)
      case _ => Err(UnknownTarget)
    }

    predicate AllClean() {
      Clean(users) && Clean(group) && Clean(broadcast)
    }
  }

  function NormalizePushChannels(channels: PushChannels): Result<PushChannels, Error> {
    var c := PushChannels(TrimSpace(channels.users), TrimSpace(channels.group), TrimSpace(channels.broadcast));
    if c.users == "" then Err(UsersChannelRequired)
    else if c.group == "" then Err(GroupChannelRequired)
    else if c.broadcast == "" then Err(BroadcastChannelRequired)
    else Ok(c)
  }

  /** Normalising accepts exactly the channels that are not blank, trims each of them, names the
      first blank one otherwise, and changes nothing the second time. */
  lemma NormalizePushChannelsSpec(channels: PushChannels)
    ensures NormalizePushChannels(channels).Ok?
            <==> !AllSpace(channels.users) && !AllSpace(channels.group) && !AllSpace(channels.broadcast)
    ensures NormalizePushChannels(channels).Ok? ==>
              var c := NormalizePushChannels(channels).value;
              && c.users == TrimSpace(channels.users) && c.group == TrimSpace(channels.group)
              && c.broadcast == TrimSpace(channels.broadcast)
              && c.AllClean() && NormalizePushChannels(c) == Ok(c)
    ensures NormalizePushChannels(channels) == Err(UsersChannelRequired) <==> AllSpace(channels.users)
    ensures NormalizePushChannels(channels) == Err(GroupChannelRequired)
            <==> !AllSpace(channels.users) && AllSpace(channels.group)
    ensures NormalizePushChannels(channels) == Err(BroadcastChannelRequired)
            <==> !AllSpace(channels.users) && !AllSpace(channels.group) && AllSpace(channels.broadcast)
  {
    BlankIffAllSpace(channels.users);
    BlankIffAllSpace(channels.group);
    BlankIffAllSpace(channels.broadcast);
    var c := PushChannels(TrimSpace(channels.users), TrimSpace(channels.group), TrimSpace(channels.broadcast));
    TrimSpaceTrims(channels.users);
    TrimSpaceTrims(channels.group);
    TrimSpaceTrims(channels.broadcast);
    TrimSpaceTrims(c.users);
    TrimSpaceTrims(c.group);
    TrimSpaceTrims(c.broadcast);
    hide TrimSpace, AllSpace;
  }

  /** The values of `s` without repetitions, in order of first occurrence. */
  function Unique(s: seq<string>): seq<string> {
    if s == [] then [] else
      var pre, last := s[..|s| - 1], s[|s| - 1];
      Unique(pre) + if last in pre then [] else [last]
  }

  predicate FirstAt(s: seq<string>, i: int, v: string) {
    0 <= i < |s| && s[i] == v && v !in s[..i]
  }

  /** `Unique` keeps every value exactly once, and in the order in which they first occur. */
  lemma {:induction false} UniqueSpec(s: seq<string>)
    ensures forall v :: v in Unique(s) <==> v in s
    ensures forall p, q :: 0 <= p < q < |Unique(s)| ==> Unique(s)[p] != Unique(s)[q]
    ensures forall p, q, i, j :: 0 <= p < q < |Unique(s)| ==>
              FirstAt(s, i, Unique(s)[p]) && FirstAt(s, j, Unique(s)[q]) ==> i < j
  {
    if s != [] {
      var pre, last := s[..|s| - 1], s[|s| - 1];
      UniqueSpec(pre);
      assert s == pre + [last];
      var u := Unique(s);
      forall p, q, i, j | 0 <= p < q < |u| && FirstAt(s, i, u[p]) && FirstAt(s, j, u[q])
        ensures i < j
      {
        assert i < |pre| ==> s[..i] == pre[..i];
        assert j < |pre| ==> s[..j] == pre[..j];
        assert u[p] == Unique(pre)[p] && u[p] in pre;
        FirstBelow(pre, last, i, u[p]);
        if q < |Unique(pre)| {
          assert u[q] in pre;
          FirstBelow(pre, last, j, u[q]);
          assert FirstAt(pre, i, u[p]) && FirstAt(pre, j, u[q]);
        }
      }
    }
  }

  lemma FirstBelow(pre: seq<string>, last: string, i: int, v: string)
    requires FirstAt(pre + [last], i, v) && v in pre
    ensures i < |pre|
  {
    assert (pre + [last])[..|pre|] == pre;
  }

  /** The channels to subscribe to, each once. */
  method UniqueList(channels: PushChannels) returns (out: seq<string>)
    ensures out == Unique(channels.List())
  {
    var list := CompactStrings([channels.users, channels.group, channels.broadcast]);
    if |list| <= 1 {
      assert |list| == 1 ==> list[..0] == [] && list == [list[0]];
      return list;
    }
    out := [];
    var seen: set<string> := {};
    for i := 0 to |list|
      invariant out == Unique(list[..i])
      invariant forall v :: v in seen <==> v in list[..i]
    {
      assert list[..i + 1][..i] == list[..i];
      if list[i] !in seen {
        seen := seen + {list[i]};
        out := out + [list[i]];
      }
    }
    assert list[..|list|] == list;
  }

  /** Every known target's channel is subscribed to, also when channels coincide, and nothing
      but those channels is. */
  lemma SubscribedToEveryTarget(channels: PushChannels)
    requires channels.AllClean()
    ensures forall t :: channels.ChannelForTarget(t).Ok? ==>
              channels.ChannelForTarget(t).value in Unique(channels.List())
    ensures forall v :: v in Unique(channels.List()) ==> exists t :: channels.ChannelForTarget(t) == Ok(v)
  {
    CompactClean([channels.users, channels.group, channels.broadcast]);
    UniqueSpec(channels.List());
    hide Unique;
    forall v | v in Unique(channels.List()) ensures exists t :: channels.ChannelForTarget(t) == Ok(v) {
      assert v == channels.users || v == channels.group || v == channels.broadcast;
      assert channels.ChannelForTarget(Users) == Ok(channels.users);
      assert channels.ChannelForTarget(Group) == Ok(channels.group);
      assert channels.ChannelForTarget(Broadcast) == Ok(channels.broadcast);
    }
  }

  // ----- Wire format -----

  /** Protobuf, as far as the pipeline depends on it. */
  datatype Codec = Codec(marshal: PushEvent -> Option<Bytes>, unmarshal: Bytes -> Option<PushEvent>)

  /** What is encoded decodes to itself, and a field that is set leaves a trace. */
  ghost predicate Faithful(codec: Codec) {
    forall e :: codec.marshal(e).Some? ==>
      codec.unmarshal(codec.marshal(e).value) == Some(e) && (e.target != Unspecified ==> codec.marshal(e).value != [])
  }

  datatype Message = Message(channel: string, payload: Bytes)

  // ----- Publishing -----

  /** The Redis connection: what was published, the channel lists subscribed to, and how many
      subscriptions were closed again. */
  class PushRedis {
    var published: seq<Message>
    var subscriptions: seq<seq<string>>
    var closed: nat

    constructor ()
      ensures published == [] && subscriptions == [] && closed == 0
    {
      published, subscriptions, closed := [], [], 0;
    }

    method Publish(channel: string, payload: Bytes, fault: Fault) returns (ok: bool)
      modifies this`published
      ensures published == old(published) + if fault.RequestLost? then [] else [Message(channel, payload)]
      ensures ok == fault.Delivered?
    {
      if !fault.RequestLost? {
        published := published + [Message(channel, payload)];
      }
      ok := fault.Delivered?;
    }

    method Subscribe(channels: seq<string>)
      modifies this`subscriptions
      ensures subscriptions == old(subscriptions) + [channels]
    {
      subscriptions := subscriptions + [channels];
    }

    method Close()
      modifies this`closed
      ensures closed == old(closed) + 1
    {
      closed := closed + 1;
    }
  }

  /** The message an event becomes, if it can be published at all. */
  function MessageFor(codec: Codec, channels: PushChannels, event: PushEvent): Result<Message, Error> {
    match channels.ChannelForTarget(event.target)
    case Err(e) => Err(e)
    case Ok(channel) =>
      match codec.marshal(event)
      case None => Err(MarshalFailed)
      case Some(payload) => Ok(Message(channel, payload))
  }

  /** Where an event travels and what it is refused for, target by target: users, connections and
      both closings on the users channel, groups on the group channel, broadcasts on the broadcast
      channel, anything else nowhere. */
  lemma MessageForSpec(codec: Codec, channels: PushChannels, event: PushEvent)
    ensures var message, payload := MessageFor(codec, channels, event), codec.marshal(event);
            match event.target
            case Unspecified => message == Err(UnknownTarget)
            case Unknown(_) => message == Err(UnknownTarget)
            case Group => Travels(message, payload, channels.group)
            case Broadcast => Travels(message, payload, channels.broadcast)
            case _ => Travels(message, payload, channels.users)
  {
  }

  /** The message holds the encoded event and stands on this channel, if it can be encoded. */
  predicate Travels(message: Result<Message, Error>, payload: Option<Bytes>, channel: string) {
    if payload == None then message == Err(MarshalFailed)
    else message.Ok? && message.value.channel == channel && message.value.payload == payload.value
  }

  class Publisher {
    const redis: PushRedis
    const channels: PushChannels
    const codec: Codec

    constructor (redis: PushRedis, channels: PushChannels, codec: Codec)
      requires channels.AllClean()
      ensures this.redis == redis && this.channels == channels && this.codec == codec
    {
      this.redis, this.channels, this.codec := redis, channels, codec;
    }

    /** One message on the channel of the event's target, or an error and no message. */
    method Publish(event: Option<PushEvent>, fault: Fault) returns (err: Option<Error>)
      modifies redis`published
      ensures event == None ==> err == Some(EventRequired) && redis.published == old(redis.published)
      ensures event.Some? ==>
                var message := MessageFor(codec, channels, event.value);
                if message.Err? then err == Some(message.error) && redis.published == old(redis.published)
                else
                  && err == (if fault.Delivered? then None else Some(PublishFailed))
                  && redis.published == old(redis.published) + if fault.RequestLost? then [] else [message.value]
    {
      if event == None {
        return Some(EventRequired);
      }
      var channel := channels.ChannelForTarget(event.value.target);
      if channel.Err? {
        return Some(channel.error);
      }
      var payload := codec.marshal(event.value);
      if payload == None {
        return Some(MarshalFailed);
      }
      var ok := redis.Publish(channel.value, payload.value, fault);
      err := if ok then None else Some(PublishFailed);
    }
  }

  // ----- Dispatching -----

  datatype Call =
    | SendUsersRaw(ids: seq<string>, methodName: string, payload: Bytes)
    | SendConnectionsRaw(ids: seq<string>, methodName: string, payload: Bytes)
    | CloseUsersCall(ids: seq<string>)
    | CloseConnectionsCall(ids: seq<string>)
    | SendGroupRaw(group: string, methodName: string, payload: Bytes)
    | SendAllRaw(methodName: string, payload: Bytes)

  /** The local websocket handler: it keeps the calls made to it, and may answer any of them
      with an error. */
  class SignalSender {
    var calls: seq<Call>

    constructor ()
      ensures calls == []
    {
      calls := [];
    }

    method Send(call: Call, fails: bool) returns (err: Option<Error>)
      modifies this
      ensures calls == old(calls) + [call]
      ensures err == if fails then Some(SendFailed) else None
    {
      calls := calls + [call];
      err := if fails then Some(SendFailed) else None;
    }
  }

  /** The sender call a dispatched event stands for. */
  function CallFor(event: PushEvent): Result<Call, Error> {
    var m := TrimSpace(event.methodName);
    var users, connections := Compact(event.userIds), Compact(event.connectionIds);
    var group := TrimSpace(event.group);
    match event.target
    case Users =>
      if m == "" then Err(MethodRequired)
      else if users == [] then Err(UserIdsRequired)
      else Ok(SendUsersRaw(users, m, event.payload))
    case Connections =>
      if m == "" then Err(MethodRequired)
      else if connections == [] then Err(ConnectionIdsRequired)
      else Ok(SendConnectionsRaw(connections, m, event.payload))
    case CloseUsers =>
      if users == [] then Err(UserIdsRequired) else Ok(CloseUsersCall(users))
    case CloseConnections =>
      if connections == [] then Err(ConnectionIdsRequired) else Ok(CloseConnectionsCall(connections))
    case Group =>
      if m == "" then Err(MethodRequired)
      else if group == "" then Err(GroupRequired)
      else Ok(SendGroupRaw(group, m, event.payload))
    case Broadcast =>
      if m == "" then Err(MethodRequired) else Ok(SendAllRaw(m, event.payload))
    case _ => Err(UnknownTarget)
  }

  /** What `ReceiveMessage` can give the loop: an error, a nil message, or a message. */
  datatype Received = Terminal | Recoverable | Nil | Got(message: Message)

  /** The event the loop passes to `dispatch` for one receive, if any. */
  function EventOf(codec: Codec, r: Received): Option<PushEvent> {
    if r.Got? && r.message.payload != [] then codec.unmarshal(r.message.payload) else None
  }

  /** The events dispatched before the first terminal error. */
  function Dispatched(codec: Codec, stream: seq<Received>): seq<PushEvent> {
    if stream == [] || stream[0].Terminal? then []
    else (if EventOf(codec, stream[0]).Some? then [EventOf(codec, stream[0]).value] else [])
         + Dispatched(codec, stream[1..])
  }

  predicate Alive(stream: seq<Received>, n: nat) {
    forall k :: 0 <= k < n && k < |stream| ==> !stream[k].Terminal?
  }

  /** Where in the stream the dispatched events come from. */
  function Sources(codec: Codec, stream: seq<Received>): seq<nat> {
    if stream == [] || stream[0].Terminal? then []
    else (if EventOf(codec, stream[0]).Some? then [0] else []) + Shift(Sources(codec, stream[1..]))
  }

  function Shift(s: seq<nat>): (r: seq<nat>)
    ensures |r| == |s| && forall k :: 0 <= k < |s| ==> r[k] == s[k] + 1
  {
    seq(|s|, k requires 0 <= k < |s| => s[k] + 1)
  }

  /** `events` come from the places `at` of the stream, in order. */
  predicate Picks(codec: Codec, stream: seq<Received>, at: seq<nat>, events: seq<PushEvent>) {
    && |at| == |events|
    && (forall p, q :: 0 <= p < q < |at| ==> at[p] < at[q])
    && (forall p :: 0 <= p < |at| ==> at[p] < |stream|)
    && (forall p :: 0 <= p < |at| ==> EventOf(codec, stream[at[p]]) == Some(events[p]))
  }

  lemma PicksShift(codec: Codec, stream: seq<Received>, at: seq<nat>, events: seq<PushEvent>)
    requires stream != [] && Picks(codec, stream[1..], at, events)
    ensures Picks(codec, stream, Shift(at), events)
  {
    hide EventOf;
    forall p | 0 <= p < |at| ensures stream[Shift(at)[p]] == stream[1..][at[p]] {
    }
  }

  lemma PicksHead(codec: Codec, stream: seq<Received>, at: seq<nat>, events: seq<PushEvent>)
    requires stream != [] && EventOf(codec, stream[0]).Some? && Picks(codec, stream, Shift(at), events)
    ensures Picks(codec, stream, [0] + Shift(at), [EventOf(codec, stream[0]).value] + events)
  {
    hide EventOf;
  }

  lemma {:induction false} SourcesInOrder(codec: Codec, stream: seq<Received>)
    ensures Picks(codec, stream, Sources(codec, stream), Dispatched(codec, stream))
  {
    if stream != [] && !stream[0].Terminal? {
      var at, events := Sources(codec, stream[1..]), Dispatched(codec, stream[1..]);
      SourcesInOrder(codec, stream[1..]);
      DispatchedUnfolds(codec, stream);
      hide Sources, Dispatched, EventOf, Picks;
      PicksShift(codec, stream, at, events);
      if EventOf(codec, stream[0]).Some? {
        PicksHead(codec, stream, at, events);
      } else {
        assert [] + Shift(at) == Shift(at) && [] + events == events;
      }
    }
  }

  lemma {:induction false} SourcesComplete(codec: Codec, stream: seq<Received>, k: nat)
    requires k < |stream|
    ensures k in Sources(codec, stream) <==> Alive(stream, k + 1) && EventOf(codec, stream[k]).Some?
  {
    if !stream[0].Terminal? {
      DispatchedUnfolds(codec, stream);
      ShiftMember(Sources(codec, stream[1..]), k);
      AliveTail(stream, k);
      if k > 0 { SourcesComplete(codec, stream[1..], k - 1); }
      hide Sources, Alive, EventOf;
    }
  }

  /** The dispatched events are exactly the in-order subsequence of decodable, non-empty messages
      before the first terminal error: each taken from its own place, in order, none left out. */
  lemma {:induction false} DispatchedInOrder(codec: Codec, stream: seq<Received>)
    ensures var at := Sources(codec, stream);
            && |at| == |Dispatched(codec, stream)|
            && (forall p, q :: 0 <= p < q < |at| ==> at[p] < at[q])
            && (forall p :: 0 <= p < |at| ==> at[p] < |stream|)
            && (forall p :: 0 <= p < |at| ==> EventOf(codec, stream[at[p]]) == Some(Dispatched(codec, stream)[p]))
            && (forall k: nat :: k < |stream| ==>
                  (k in at <==> Alive(stream, k + 1) && EventOf(codec, stream[k]).Some?))
  {
    SourcesInOrder(codec, stream);
    forall k: nat | k < |stream|
      ensures k in Sources(codec, stream) <==> Alive(stream, k + 1) && EventOf(codec, stream[k]).Some?
    {
      SourcesComplete(codec, stream, k);
    }
  }

  lemma {:induction false} DispatchedUnfolds(codec: Codec, stream: seq<Received>)
    requires stream != [] && !stream[0].Terminal?
    ensures Dispatched(codec, stream) ==
            (if EventOf(codec, stream[0]).Some? then [EventOf(codec, stream[0]).value] else [])
            + Dispatched(codec, stream[1..])
    ensures Sources(codec, stream) ==
            (if EventOf(codec, stream[0]).Some? then [0] else []) + Shift(Sources(codec, stream[1..]))
  {
  }

  lemma ShiftMember(s: seq<nat>, k: nat)
    ensures k in Shift(s) <==> k > 0 && k - 1 in s
  {
    if k > 0 && k - 1 in s {
      var i :| 0 <= i < |s| && s[i] == k - 1;
      assert Shift(s)[i] == k;
    }
  }

  lemma AliveTail(stream: seq<Received>, k: nat)
    requires stream != [] && !stream[0].Terminal? && k < |stream|
    ensures k > 0 ==> (Alive(stream, k + 1) <==> Alive(stream[1..], k))
    ensures Alive(stream, 1)
  {
    if k > 0 && Alive(stream[1..], k) {
      assert forall j :: 1 <= j < |stream| ==> stream[j] == stream[1..][j - 1];
    }
  }

  /** The calls a list of dispatched events makes; an event that is refused makes none. */
  function CallsOf(events: seq<PushEvent>): seq<Call> {
    if events == [] then []
    else (if CallFor(events[0]).Ok? then [CallFor(events[0]).value] else []) + CallsOf(events[1..])
  }

  lemma {:induction false} CallsOfAppend(a: seq<PushEvent>, b: seq<PushEvent>)
    ensures CallsOf(a + b) == CallsOf(a) + CallsOf(b)
  {
    if a == [] {
      assert a + b == b;
    } else {
      var head := if CallFor(a[0]).Ok? then [CallFor(a[0]).value] else [];
      hide CallFor;
      CallsOfAppend(a[1..], b);
      assert (a + b)[1..] == a[1..] + b;
      assert CallsOf(a + b) == head + CallsOf(a[1..] + b);
      assert CallsOf(a) == head + CallsOf(a[1..]);
      hide CallsOf;
    }
  }

  lemma {:induction false} DispatchedAppend(codec: Codec, a: seq<Received>, b: seq<Received>)
    requires Alive(a, |a|)
    ensures Dispatched(codec, a + b) == Dispatched(codec, a) + Dispatched(codec, b)
  {
    if a == [] {
      assert a + b == b;
    } else {
      assert (a + b)[1..] == a[1..] + b;
      assert forall k :: 0 <= k < |a| - 1 ==> a[1..][k] == a[k + 1];
      DispatchedAppend(codec, a[1..], b);
      hide EventOf;
    }
  }

  class Subscriber {
    const redis: PushRedis
    const channels: PushChannels
    const sender: SignalSender
    const codec: Codec

    constructor (redis: PushRedis, channels: PushChannels, sender: SignalSender, codec: Codec)
      requires channels.AllClean()
      ensures this.redis == redis && this.channels == channels && this.sender == sender && this.codec == codec
    {
      this.redis, this.channels, this.sender, this.codec := redis, channels, sender, codec;
    }

    /** One sender call, or an error and no call. */
    method Dispatch(event: Option<PushEvent>, fails: bool) returns (err: Option<Error>)
      modifies sender
      ensures event == None ==> err == Some(EventRequired) && sender.calls == old(sender.calls)
      ensures event.Some? ==>
                var call := CallFor(event.value);
                && sender.calls == old(sender.calls) + (if call.Ok? then [call.value] else [])
                && err == (if call.Err? then Some(call.error) else if fails then Some(SendFailed) else None)
    {
      if event == None {
        return Some(EventRequired);
      }
      var e := event.value;
      match e.target {
        case Users =>
          var m := TrimSpace(e.methodName);
          if m == "" { return Some(MethodRequired); }
          var userIDs := CompactStrings(e.userIds);
          if |userIDs| == 0 { return Some(UserIdsRequired); }
          err := sender.Send(SendUsersRaw(userIDs, m, e.payload), fails);
        case Connections =>
          var m := TrimSpace(e.methodName);
          if m == "" { return Some(MethodRequired); }
          var connectionIDs := CompactStrings(e.connectionIds);
          if |connectionIDs| == 0 { return Some(ConnectionIdsRequired); }
          err := sender.Send(SendConnectionsRaw(connectionIDs, m, e.payload), fails);
        case CloseUsers =>
          var userIDs := CompactStrings(e.userIds);
          if |userIDs| == 0 { return Some(UserIdsRequired); }
          err := sender.Send(CloseUsersCall(userIDs), fails);
        case CloseConnections =>
          var connectionIDs := CompactStrings(e.connectionIds);
          if |connectionIDs| == 0 { return Some(ConnectionIdsRequired); }
          err := sender.Send(CloseConnectionsCall(connectionIDs), fails);
        case Group =>
          var m := TrimSpace(e.methodName);
          if m == "" { return Some(MethodRequired); }
          var group := TrimSpace(e.group);
          if group == "" { return Some(GroupRequired); }
          err := sender.Send(SendGroupRaw(group, m, e.payload), fails);
        case Broadcast =>
          var m := TrimSpace(e.methodName);
          if m == "" { return Some(MethodRequired); }
          err := sender.Send(SendAllRaw(m, e.payload), fails);
        case _ =>
          return Some(UnknownTarget);
      }
    }

    /** The receive loop over what the subscription yields, up to the first terminal error or as
        far as the stream goes. Bad messages, recoverable errors and failed dispatches leave no
        trace beyond themselves, and the subscription is closed exactly when the loop ends. */
    method Start(stream: seq<Received>, fails: seq<bool>) returns (stopped: bool)
      requires |fails| == |stream|
      modifies sender, redis`subscriptions, redis`closed
      ensures sender.calls == old(sender.calls) + CallsOf(Dispatched(codec, stream))
      ensures stopped == exists k :: 0 <= k < |stream| && stream[k].Terminal?
      ensures redis.subscriptions == old(redis.subscriptions) + [Unique(channels.List())]
      ensures redis.closed == old(redis.closed) + if stopped then 1 else 0
    {
      var subscribeChannels := UniqueList(channels);
      redis.Subscribe(subscribeChannels);
      for i := 0 to |stream|
        invariant Alive(stream[..i], i)
        invariant sender.calls == old(sender.calls) + CallsOf(Dispatched(codec, stream[..i]))
        invariant redis.closed == old(redis.closed)
        invariant redis.subscriptions == old(redis.subscriptions) + [subscribeChannels]
      {
        LoopStep(codec, stream, i);
        if stream[i].Terminal? {
          redis.Close();
          return true;
        }
        if stream[i].Got? && stream[i].message.payload != [] {
          var event := codec.unmarshal(stream[i].message.payload);
          if event.Some? {
            var _ := Dispatch(event, fails[i]);
          }
        }
      }
      assert stream[..|stream|] == stream;
      stopped := false;
    }
  }

  lemma {:induction false} LoopStep(codec: Codec, stream: seq<Received>, i: nat)
    requires i < |stream| && Alive(stream[..i], i)
    ensures stream[i].Terminal? ==> Dispatched(codec, stream) == Dispatched(codec, stream[..i])
    ensures !stream[i].Terminal? ==>
              && Alive(stream[..i + 1], i + 1)
              && CallsOf(Dispatched(codec, stream[..i + 1])) == CallsOf(Dispatched(codec, stream[..i]))
                 + (match EventOf(codec, stream[i])
                    case None => []
                    case Some(e) => if CallFor(e).Ok? then [CallFor(e).value] else [])
  {
    var pre := stream[..i];
    if stream[i].Terminal? {
      assert stream == pre + stream[i..];
      DispatchedAppend(codec, pre, stream[i..]);
    } else {
      assert stream[..i + 1] == pre + [stream[i]];
      DispatchedAppend(codec, pre, [stream[i]]);
      CallsOfAppend(Dispatched(codec, pre), Dispatched(codec, [stream[i]]));
      OneReceived(codec, stream[i]);
      hide Dispatched, CallsOf, CallFor, EventOf;
    }
  }

  lemma {:induction false} OneReceived(codec: Codec, r: Received)
    requires !r.Terminal?
    ensures CallsOf(Dispatched(codec, [r])) ==
            match EventOf(codec, r)
            case None => []
            case Some(e) => if CallFor(e).Ok? then [CallFor(e).value] else []
  {
    assert [r][1..] == [];
    if EventOf(codec, r).Some? {
      var e := EventOf(codec, r).value;
      assert Dispatched(codec, [r]) == [e];
      assert [e][1..] == [];
    }
  }

  /** No event that can be published is skipped as empty or undecodable on arrival. */
  lemma PublishedIsReceivable(codec: Codec, channels: PushChannels, event: PushEvent)
    requires Faithful(codec) && MessageFor(codec, channels, event).Ok?
    ensures EventOf(codec, Got(MessageFor(codec, channels, event).value)) == Some(event)
  {
    assert codec.marshal(event).Some?;
  }
}
