/**
 * `Server::upsertServer`: find the `servers` row of (server_ip, server_port);
 * overwrite its current-state fields and add to `rounds_played`, or insert a
 * new row seeded with the given values.
 */
module ServerTable {
  import opened Wrappers
  import opened JsonValue
  import opened Store

  /** The values one call binds to its statement. */
  datatype ServerValues = ServerValues(key: ServerKey, info: ServerInfo, rounds: int)

  /**
   * The array `upsertServer` receives. The first three keys are read without a
   * default; for the others `None` stands for an absent key.
   */
  datatype ServerArray = ServerArray(
    name: Json, ip: Json, port: Json,
    mapName: Option<Json>, gameType: Option<Json>,
    maxPlayers: Option<Json>, currentPlayers: Option<Json>, rounds: Option<Json>)

  /**
   * The bound values: map and game type default to NULL; max_players,
   * current_players and rounds_played default to 0. `None` when the store
   * would refuse one of them.
   */
  function BindServer(data: ServerArray): (r: Option<ServerValues>)
    ensures r.Some? ==> Some(r.value.key.ip) == AsBoundText(data.ip) && Some(r.value.key.port) == AsInt(data.port)
    ensures r.Some? ==> Some(r.value.info.name) == AsBoundText(data.name)
    ensures r.Some? && (data.mapName.None? || data.mapName == Some(JNull)) ==> r.value.info.mapName == None
    ensures r.Some? && (data.gameType.None? || data.gameType == Some(JNull)) ==> r.value.info.gameType == None
    ensures r.Some? && data.mapName.Some? && data.mapName.value != JNull ==> r.value.info.mapName == AsBoundText(data.mapName.value)
    ensures r.Some? && data.gameType.Some? && data.gameType.value != JNull ==> r.value.info.gameType == AsBoundText(data.gameType.value)
    ensures r.Some? ==> Some(r.value.info.maxPlayers) == BoundCount(data.maxPlayers)
    ensures r.Some? ==> Some(r.value.info.currentPlayers) == BoundCount(data.currentPlayers)
    ensures r.Some? ==> Some(r.value.rounds) == BoundCount(data.rounds)
    // map and game type always bind: they are NULL or text
    ensures r.None? <==>
      || AsBoundText(data.name).None? || AsBoundText(data.ip).None? || AsInt(data.port).None?
      || BoundCount(data.maxPlayers).None? || BoundCount(data.currentPlayers).None? || BoundCount(data.rounds).None?
  {
    var name := AsBoundText(data.name);
    var ip := AsBoundText(data.ip);
    var port := AsInt(data.port);
    var mapName := AsNullableText(Coalesce(data.mapName, JNull));
    var gameType := AsNullableText(Coalesce(data.gameType, JNull));
    var maxPlayers := BoundCount(data.maxPlayers);
    var currentPlayers := BoundCount(data.currentPlayers);
    var rounds := BoundCount(data.rounds);
    if name.None? || ip.None? || port.None? || maxPlayers.None? || currentPlayers.None? || rounds.None?
    then None
    else Some(ServerValues(
      ServerKey(ip.value, port.value),
      ServerInfo(name.value, mapName, gameType, maxPlayers.value, currentPlayers.value),
      rounds.value))
  }

  /**
   * Name, ip, map and game type reach only the statements, never a `string`
   * parameter, so an array in any of them binds exactly as the string
   * "Array" would.
   */
  lemma ArraysBindAsText(data: ServerArray)
    ensures IsArray(data.name) ==> BindServer(data) == BindServer(data.(name := JStr("Array")))
    ensures IsArray(data.ip) ==> BindServer(data) == BindServer(data.(ip := JStr("Array")))
    ensures data.mapName.Some? && IsArray(data.mapName.value) ==>
      BindServer(data) == BindServer(data.(mapName := Some(JStr("Array"))))
    ensures data.gameType.Some? && IsArray(data.gameType.value) ==>
      BindServer(data) == BindServer(data.(gameType := Some(JStr("Array"))))
  {
  }

  /**
   * The store after one `upsertServer` call and what the call returns.
   * `storeFails` says the store raises during the call (a lost connection, a
   * lock timeout); a raised call changes nothing.
   */
  function ServerUpsert(s: Snapshot, data: ServerArray, storeFails: bool): (r: (Snapshot, Result<nat, DbError>))
    ensures r.1.Failure? <==> storeFails || BindServer(data).None?
    ensures r.1.Failure? ==> r.0 == s
    ensures r.0.players == s.players && r.0.weapons == s.weapons && r.0.nextPlayerId == s.nextPlayerId
    // the row of the key now holds the reported state, and its id is returned
    ensures r.1.Success? ==>
      var v := BindServer(data).value;
      && v.key in r.0.servers
      && r.0.servers[v.key].info == v.info
      && r.0.servers[v.key].id == r.1.value
      && (v.key in s.servers ==>
            && r.0.servers[v.key].id == s.servers[v.key].id
            && r.0.servers[v.key].roundsPlayed == s.servers[v.key].roundsPlayed + v.rounds
            && r.0.nextServerId == s.nextServerId)
      && (v.key !in s.servers ==>
            && r.0.servers[v.key].roundsPlayed == v.rounds
            && r.1.value == s.nextServerId
            && r.0.nextServerId == s.nextServerId + 1)
      && r.0.servers.Keys == s.servers.Keys + {v.key}
      && (forall k :: k in s.servers && k != v.key ==> r.0.servers[k] == s.servers[k])
    ensures IdsValid(s) ==> IdsValid(r.0)
  {
    if storeFails then (s, Failure(Outage))
    else match BindServer(data)
      case None => (s, Failure(BadValue))
      case Some(v) =>
        if v.key in s.servers then
          var row := s.servers[v.key];
          (s.(servers := s.servers[v.key := ServerRow(row.id, v.info, row.roundsPlayed + v.rounds)]),
           Success(row.id))
        else
          (s.(servers := s.servers[v.key := ServerRow(s.nextServerId, v.info, v.rounds)],
              nextServerId := s.nextServerId + 1),
           Success(s.nextServerId))
  }

  /** `upsertServer`: look the endpoint up, then update its row or insert a new one. */
  method UpsertServer(db: Database, data: ServerArray, storeFails: bool) returns (r: Result<nat, DbError>)
    modifies db
    ensures (db.State(), r) == ServerUpsert(old(db.State()), data, storeFails)
  {
    if storeFails {
      return Failure(Outage);
    }
    var bound := BindServer(data);
    if bound.None? {
      return Failure(BadValue);
    }
    var v := bound.value;
    if v.key in db.servers {
      var row := db.servers[v.key];
      db.servers := db.servers[v.key := ServerRow(row.id, v.info, row.roundsPlayed + v.rounds)];
      r := Success(row.id);
    } else {
      var id := db.nextServerId;
      db.servers := db.servers[v.key := ServerRow(id, v.info, v.rounds)];
      db.nextServerId := id + 1;
      r := Success(id);
    }
  }
}
