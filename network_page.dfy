/** The network page: the store's `connections` table held in memory, the
    store's `profiles` table, and the three lists the page shows. Every store
    call takes an explicit success flag; a failed call throws in the page,
    so the method stops there and the remaining steps do not happen. */
module Network {
  import opened Common
  import opened NetworkViews
  import NetworkLaws

  /** The table's primary-key discipline: ids are pairwise distinct and all
      below the id the store will hand out next. */
  ghost predicate TableValid(rows: seq<Connection>, nextId: ConnId)
  {
    (forall i :: 0 <= i < |rows| ==> rows[i].id < nextId) && DistinctIds(rows)
  }

  class NetworkPage {
    /** The store's `profiles` table; nothing on this page writes it. */
    const profiles: seq<Profile>
    /** The store's `connections` table, in insertion order. */
    var rows: seq<Connection>
    /** The id the store gives the next inserted row. */
    var nextId: ConnId
    /** The lists shown under the three tabs. */
    var suggestions: seq<Profile>
    var connections: seq<Profile>
    var requests: seq<Connection>

    ghost predicate Valid()
      reads this
    {
      TableValid(rows, nextId)
    }

    constructor (profiles: seq<Profile>, rows: seq<Connection>, nextId: ConnId)
      requires TableValid(rows, nextId)
      ensures Valid()
      ensures this.profiles == profiles && this.rows == rows && this.nextId == nextId
      ensures suggestions == [] && connections == [] && requests == []
    {
      this.profiles := profiles;
      this.rows := rows;
      this.nextId := nextId;
      suggestions, connections, requests := [], [], [];
    }

    /** The store's `insert` of one row; the store picks a fresh id. */
    method InsertRow(userId: UserId, connectedUserId: UserId, status: Status, ok: bool)
      requires Valid()
      modifies this`rows, this`nextId
      ensures Valid()
      ensures rows == if ok then old(rows) + [Connection(old(nextId), userId, connectedUserId, status)] else old(rows)
      ensures nextId == if ok then old(nextId) + 1 else old(nextId)
    {
      if ok {
        rows := rows + [Connection(nextId, userId, connectedUserId, status)];
        nextId := nextId + 1;
      }
    }

    /** The store's `update({status}).eq('id', id)`. */
    method UpdateStatus(id: ConnId, status: Status, ok: bool)
      requires Valid()
      modifies this`rows
      ensures Valid()
      ensures rows == if ok then SetStatus(old(rows), id, status) else old(rows)
    {
      if ok {
        rows := SetStatus(rows, id, status);
      }
    }

    /** loadSuggestions: both queries must succeed for the list to change. */
    method LoadSuggestions(user: Option<UserId>, profilesOk: bool, connectionsOk: bool)
      modifies this`suggestions
      ensures suggestions == if user.Some? && profilesOk && connectionsOk
                             then Suggestions(profiles, rows, user.value)
                             else old(suggestions)
    {
      if user.None? || !profilesOk || !connectionsOk {
        return;
      }
      suggestions := Suggestions(profiles, rows, user.value);
    }

    /** loadConnections: the profile lookup is made only when there is at
        least one Accepted row from the user; `profileLookup` reports whether
        it was made. */
    method LoadConnections(user: Option<UserId>, connectionsOk: bool, profilesOk: bool) returns (profileLookup: bool)
      modifies this`connections
      ensures profileLookup <==> user.Some? && connectionsOk && AcceptedTargets(rows, user.value) != []
      ensures connections == if user.None? || !connectionsOk then old(connections)
                             else if !profileLookup then []
                             else if profilesOk then Connections(profiles, rows, user.value)
                             else old(connections)
    {
      profileLookup := false;
      if user.None? || !connectionsOk {
        return;
      }
      var connectedIds := AcceptedTargets(rows, user.value);
      if |connectedIds| == 0 {
        connections := [];
        return;
      }
      profileLookup := true;
      if !profilesOk {
        return;
      }
      connections := ProfilesWithIds(profiles, connectedIds);
    }

    /** loadRequests. */
    method LoadRequests(user: Option<UserId>, ok: bool)
      modifies this`requests
      ensures requests == if user.Some? && ok then Requests(rows, user.value) else old(requests)
    {
      if user.None? || !ok {
        return;
      }
      requests := Requests(rows, user.value);
    }

    /** handleConnect: insert a Pending row from the user to `profileId`,
        then reload the suggestions. */
    method Connect(user: Option<UserId>, profileId: UserId, insertOk: bool, profilesOk: bool, connectionsOk: bool)
      requires Valid()
      modifies this`rows, this`nextId, this`suggestions
      ensures Valid()
      ensures rows == if user.Some? && insertOk
                      then old(rows) + [Connection(old(nextId), user.value, profileId, Pending)]
                      else old(rows)
      ensures nextId == if user.Some? && insertOk then old(nextId) + 1 else old(nextId)
      ensures suggestions == if user.Some? && insertOk && profilesOk && connectionsOk
                             then Suggestions(profiles, rows, user.value)
                             else old(suggestions)
      ensures user.Some? && insertOk && profilesOk && connectionsOk ==>
                forall p :: p in suggestions ==> p.id != profileId
    {
      if user.None? {
        return;
      }
      InsertRow(user.value, profileId, Pending, insertOk);
      if !insertOk {
        return;
      }
      NetworkLaws.ConnectRemovesTarget(profiles, old(rows), user.value, profileId, old(nextId));
      LoadSuggestions(user, profilesOk, connectionsOk);
    }

    /** handleAccept: mark the request row Accepted, insert the reciprocal
        Accepted row, then reload the requests. The two writes are separate:
        if the insert fails, the status change stays. */
    method Accept(user: Option<UserId>, connectionId: ConnId, requesterId: UserId,
                  updateOk: bool, insertOk: bool, reloadOk: bool)
      requires Valid()
      modifies this`rows, this`nextId, this`requests
      ensures Valid()
      ensures rows == if user.None? || !updateOk then old(rows)
                      else if !insertOk then SetStatus(old(rows), connectionId, Accepted)
                      else SetStatus(old(rows), connectionId, Accepted)
                           + [Connection(old(nextId), user.value, requesterId, Accepted)]
      ensures nextId == if user.Some? && updateOk && insertOk then old(nextId) + 1 else old(nextId)
      ensures forall i, j :: 0 <= i < j < |old(rows)| ==> rows[i] == old(rows)[i] || rows[j] == old(rows)[j]
      ensures requests == if user.Some? && updateOk && insertOk && reloadOk
                          then Requests(rows, user.value)
                          else old(requests)
      ensures user.Some? && updateOk && insertOk && reloadOk ==>
                forall e :: e in requests ==> e.id != connectionId
    {
      if user.None? {
        return;
      }
      NetworkLaws.StatusChangeTouchesOneRow(rows, connectionId, Accepted);
      UpdateStatus(connectionId, Accepted, updateOk);
      if !updateOk {
        return;
      }
      InsertRow(user.value, requesterId, Accepted, insertOk);
      if !insertOk {
        return;
      }
      var updated := SetStatus(old(rows), connectionId, Accepted);
      NetworkLaws.ClosingRemovesRequest(old(rows), connectionId, Accepted, user.value);
      FilterAppend(updated, [Connection(old(nextId), user.value, requesterId, Accepted)],
                   (e: Connection) => e.connectedUserId == user.value && e.status == Pending);
      LoadRequests(user, reloadOk);
    }

    /** handleReject: mark the row Rejected, then reload the requests. The
        write does not look at the signed-in user; only the reload does. */
    method Reject(user: Option<UserId>, connectionId: ConnId, updateOk: bool, reloadOk: bool)
      requires Valid()
      modifies this`rows, this`requests
      ensures Valid()
      ensures rows == if updateOk then SetStatus(old(rows), connectionId, Rejected) else old(rows)
      ensures forall i, j :: 0 <= i < j < |old(rows)| ==> rows[i] == old(rows)[i] || rows[j] == old(rows)[j]
      ensures requests == if updateOk && user.Some? && reloadOk
                          then Requests(rows, user.value)
                          else old(requests)
      ensures updateOk && user.Some? && reloadOk ==>
                forall e :: e in requests ==> e.id != connectionId
    {
      NetworkLaws.StatusChangeTouchesOneRow(rows, connectionId, Rejected);
      UpdateStatus(connectionId, Rejected, updateOk);
      if !updateOk {
        return;
      }
      if user.Some? {
        NetworkLaws.ClosingRemovesRequest(old(rows), connectionId, Rejected, user.value);
      }
      LoadRequests(user, reloadOk);
    }
  }
}
