/** The hub of one gateway server: what a websocket's life does to the route registry. */
module Gateway {
  import opened Network
  import opened Units
  import opened Wrappers
  import opened Text
  import opened AppGroup
  import opened RouteDb
  import opened RouteHistory
  import Store = UserRouteStore

  datatype Connection = Connection(id: string, userID: string)

  datatype Error = InvalidUserID(reason: ParseError) | JoinFailed(detail: string)

  /** Group membership: a record of the connections added, by connection id and group. */
  class GroupJoiner {
    var joined: seq<(string, string)>

    constructor ()
      ensures joined == []
    {
      joined := [];
    }

    method AddToGroup(conn: Connection, group: string, reply: Option<Error>) returns (err: Option<Error>)
      modifies this
      ensures joined == old(joined) + [(conn.id, group)] && err == reply
    {
      joined := joined + [(conn.id, group)];
      err := reply;
    }
  }

  class Hub {
    const userRoutes: Store.UserRouteStore?
    const groupJoiner: GroupJoiner?

    ghost predicate Valid()
      reads this, if userRoutes == null then {} else {userRoutes, userRoutes.redis}
    {
      userRoutes != null ==> userRoutes.Valid()
    }

    constructor (userRoutes: Store.UserRouteStore?, groupJoiner: GroupJoiner?)
      requires userRoutes != null ==> userRoutes.Valid()
      ensures Valid() && this.userRoutes == userRoutes && this.groupJoiner == groupJoiner
    {
      this.userRoutes := userRoutes;
      this.groupJoiner := groupJoiner;
    }

    /** A connection whose user id does not parse changes nothing. Otherwise its route is
        registered, a failure to do so being ignored, and it joins the group of its app. */
    method OnConnected(conn: Connection, now: int, fault: Fault, joinReply: Option<Error>) returns (err: Option<Error>)
      requires Valid()
      modifies if userRoutes == null then {} else {userRoutes.redis}
      modifies if groupJoiner == null then {} else {groupJoiner}
      ensures Valid()
      ensures var parsed := ParseAppGroup(conn.userID);
              if parsed.Err? then
                && err == Some(InvalidUserID(parsed.error))
                && (userRoutes != null ==> userRoutes.redis.history == old(userRoutes.redis.history))
                && (groupJoiner != null ==> groupJoiner.joined == old(groupJoiner.joined))
              else
                && (userRoutes != null ==>
                      userRoutes.redis.history ==
                      old(userRoutes.redis.history)
                      + [Store.Sent(fault, Register(userRoutes.serverID, conn.userID, conn.id, now))])
                && (groupJoiner != null ==>
                      groupJoiner.joined == old(groupJoiner.joined) + [(conn.id, parsed.value.group)])
                && err == (if groupJoiner == null then None else joinReply)
      ensures err == None && userRoutes != null && !fault.RequestLost? && Clean(conn.id)
                && userRoutes.routeTTL >= SECOND ==>
                var routes := Routes(userRoutes.redis.dep, userRoutes.redis.db, TrimSpace(conn.userID));
                conn.id in routes && routes[conn.id] == userRoutes.serverID
    {
      var parsed := ParseAppGroup(conn.userID);
      if parsed.Err? {
        return Some(InvalidUserID(parsed.error));
      }
      if userRoutes != null {
        ghost var before := userRoutes.redis.history;
        var _ := userRoutes.RefreshConnection(conn.userID, conn.id, now, fault);
        TrimSpaceTrims(conn.id);
        if !fault.RequestLost? && Clean(conn.id) && userRoutes.routeTTL >= SECOND {
          RegisteredRouteShows(userRoutes.redis.dep, before, userRoutes.serverID, conn.userID, conn.id, now);
        }
      }
      if groupJoiner != null {
        var joinErr := groupJoiner.AddToGroup(conn, parsed.value.group, joinReply);
        if joinErr.Some? {
          return joinErr;
        }
      }
      return None;
    }

    /** A disconnect removes the route, and nothing else, whatever the user id looks like. */
    method OnDisconnected(conn: Connection, fault: Fault)
      requires Valid()
      modifies if userRoutes == null then {} else {userRoutes.redis}
      ensures Valid()
      ensures userRoutes != null ==>
                && userRoutes.redis.history ==
                     old(userRoutes.redis.history) + [Store.Sent(fault, Remove(conn.userID, conn.id))]
                && (fault.Delivered? && TrimSpace(conn.userID) != "" && Clean(conn.id) ==>
                      conn.id !in Routes(userRoutes.redis.dep, userRoutes.redis.db, TrimSpace(conn.userID)))
    {
      if userRoutes != null {
        TrimSpaceTrims(conn.id);
        var _ := userRoutes.RemoveConnection(conn.userID, conn.id, fault);
      }
    }

    /** A ping registers the route anew, so it also repairs a registration that failed. */
    method OnPing(conn: Connection, now: int, fault: Fault)
      requires Valid()
      modifies if userRoutes == null then {} else {userRoutes.redis}
      ensures Valid()
      ensures userRoutes != null ==>
                && userRoutes.redis.history ==
                     old(userRoutes.redis.history)
                     + [Store.Sent(fault, Register(userRoutes.serverID, conn.userID, conn.id, now))]
                && (!fault.RequestLost? && TrimSpace(conn.userID) != "" && Clean(conn.id)
                    && userRoutes.routeTTL >= SECOND ==>
                      var routes := Routes(userRoutes.redis.dep, userRoutes.redis.db, TrimSpace(conn.userID));
                      conn.id in routes && routes[conn.id] == userRoutes.serverID)
    {
      if userRoutes != null {
        ghost var before := userRoutes.redis.history;
        var _ := userRoutes.RefreshConnection(conn.userID, conn.id, now, fault);
        TrimSpaceTrims(conn.id);
        if !fault.RequestLost? && TrimSpace(conn.userID) != "" && Clean(conn.id) && userRoutes.routeTTL >= SECOND {
          RegisteredRouteShows(userRoutes.redis.dep, before, userRoutes.serverID, conn.userID, conn.id, now);
        }
      }
    }
  }
}
