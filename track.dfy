/**
 * The tracker endpoint `public/api/track.php`: the request gate (method, JSON,
 * required player fields) and, inside one transaction, the server upsert, the
 * player upsert and one weapon update per named weapon entry. Any failure
 * rolls the store back to its state before the transaction.
 */
module TrackApi {
  import opened Wrappers
  import opened JsonValue
  import opened Store
  import opened ServerTable
  import opened PlayerTable
  import opened WeaponTable

  /** An HTTP request: its method and its body after `json_decode` (`None` when the body is not valid JSON). */
  datatype Request = Request(httpMethod: string, body: Option<Json>)

  datatype Response =
    | MethodNotAllowed
    | InvalidJson
    | MissingPlayerData
    | InternalError
    | Ok(playerId: nat, serverId: Option<nat>)

  function StatusCode(r: Response): (code: int)
    ensures code == 200 <==> r.Ok?
    ensures code == 400 <==> r.MissingPlayerData? || r.InvalidJson?
    ensures code == 405 <==> r.MethodNotAllowed?
    ensures code == 500 <==> r.InternalError?
  {
    match r
    case MethodNotAllowed => 405
    case InvalidJson => 400
    case MissingPlayerData => 400
    case InternalError => 500
    case Ok(_, _) => 200
  }

  /** `$v[$key] ?? $default`. */
  function Field(v: Json, key: string, default: Json): (r: Json)
    ensures Index(v, key).None? || Index(v, key) == Some(JNull) ==> r == default
    ensures Index(v, key).Some? && Index(v, key).value != JNull ==> r == Index(v, key).value
  {
    Coalesce(Index(v, key), default)
  }

  /** The gate on the player block: it, its name or its hash is PHP-empty. */
  predicate MissingPlayer(data: Json)
  {
    var player := Index(data, "player");
    Empty(player) || Empty(At(player, "name")) || Empty(At(player, "hash"))
  }

  function PlayerOf(data: Json): (p: Json)
    requires !MissingPlayer(data)
    ensures p.JObj?
  {
    Index(data, "player").value
  }

  /** The array `upsertServer` receives: fixed defaults, and always one round. */
  function ServerData(server: Json): (r: ServerArray)
    ensures r.rounds == Some(JInt(1))
    ensures r.mapName.Some? && r.gameType.Some? && r.maxPlayers.Some? && r.currentPlayers.Some?
    ensures Index(server, "name").None? ==> r.name == JStr("Unknown Server")
    ensures Index(server, "ip").None? ==> r.ip == JStr("0.0.0.0")
    ensures Index(server, "port").None? ==> r.port == JInt(0)
    ensures Index(server, "map").None? ==> r.mapName == Some(JNull)
    ensures Index(server, "gametype").None? ==> r.gameType == Some(JNull)
    ensures Index(server, "max_players").None? ==> r.maxPlayers == Some(JInt(0))
    ensures Index(server, "current_players").None? ==> r.currentPlayers == Some(JInt(0))
  {
    ServerArray(
      Field(server, "name", JStr("Unknown Server")),
      Field(server, "ip", JStr("0.0.0.0")),
      Field(server, "port", JInt(0)),
      Some(Field(server, "map", JNull)),
      Some(Field(server, "gametype", JNull)),
      Some(Field(server, "max_players", JInt(0))),
      Some(Field(server, "current_players", JInt(0))),
      Some(JInt(1)))
  }

  /** The array `upsertPlayer` receives: an absent `rounds` counts one round, any other absent counter 0. */
  function PlayerData(player: Json): (r: PlayerArray)
    requires Index(player, "name").Some? && Index(player, "hash").Some?
    ensures r.name == Index(player, "name").value && r.hash == Index(player, "hash").value
    ensures Index(player, "rounds").None? ==> r.rounds == Some(JInt(1))
    ensures Index(player, "kills").None? ==> r.kills == Some(JInt(0))
    ensures Index(player, "deaths").None? ==> r.deaths == Some(JInt(0))
    ensures Index(player, "score").None? ==> r.score == Some(JInt(0))
  {
    PlayerArray(
      Index(player, "name").value,
      Index(player, "hash").value,
      Some(Field(player, "kills", JInt(0))),
      Some(Field(player, "deaths", JInt(0))),
      Some(Field(player, "suicides", JInt(0))),
      Some(Field(player, "teamkills", JInt(0))),
      Some(Field(player, "playtime", JInt(0))),
      Some(Field(player, "rounds", JInt(1))),
      Some(Field(player, "wins", JInt(0))),
      Some(Field(player, "losses", JInt(0))),
      Some(Field(player, "score", JInt(0))),
      Some(Field(player, "headshots", JInt(0))))
  }

  /** The stats array of one weapon entry; absent counters are 0. */
  function WeaponStats(w: Json): (r: WeaponArray)
    ensures r.kills.Some? && r.deaths.Some? && r.shots.Some? && r.hits.Some? && r.headshots.Some?
    ensures Index(w, "kills").None? ==> r.kills == Some(JInt(0))
    ensures Index(w, "shots").None? ==> r.shots == Some(JInt(0))
  {
    WeaponArray(
      Some(Field(w, "kills", JInt(0))),
      Some(Field(w, "deaths", JInt(0))),
      Some(Field(w, "shots", JInt(0))),
      Some(Field(w, "hits", JInt(0))),
      Some(Field(w, "headshots", JInt(0))))
  }

  /** `$v ?? ...` takes the default: the value is absent or null. */
  predicate Unset(v: Option<Json>)
  {
    v.None? || v == Some(JNull)
  }

  /** Every counter of a weapon entry that is absent or null is sent as 0. */
  lemma WeaponStatsDefaults(w: Json)
    ensures Unset(Index(w, "kills")) ==> WeaponStats(w).kills == Some(JInt(0))
    ensures Unset(Index(w, "deaths")) ==> WeaponStats(w).deaths == Some(JInt(0))
    ensures Unset(Index(w, "shots")) ==> WeaponStats(w).shots == Some(JInt(0))
    ensures Unset(Index(w, "hits")) ==> WeaponStats(w).hits == Some(JInt(0))
    ensures Unset(Index(w, "headshots")) ==> WeaponStats(w).headshots == Some(JInt(0))
  {
  }

  /** Every counter of the player block that is absent or null is sent as 0, except `rounds`, sent as 1. */
  lemma PlayerDataDefaults(player: Json)
    requires Index(player, "name").Some? && Index(player, "hash").Some?
    ensures Unset(Index(player, "kills")) ==> PlayerData(player).kills == Some(JInt(0))
    ensures Unset(Index(player, "deaths")) ==> PlayerData(player).deaths == Some(JInt(0))
    ensures Unset(Index(player, "suicides")) ==> PlayerData(player).suicides == Some(JInt(0))
    ensures Unset(Index(player, "teamkills")) ==> PlayerData(player).teamkills == Some(JInt(0))
    ensures Unset(Index(player, "playtime")) ==> PlayerData(player).playtime == Some(JInt(0))
    ensures Unset(Index(player, "rounds")) ==> PlayerData(player).rounds == Some(JInt(1))
    ensures Unset(Index(player, "wins")) ==> PlayerData(player).wins == Some(JInt(0))
    ensures Unset(Index(player, "losses")) ==> PlayerData(player).losses == Some(JInt(0))
    ensures Unset(Index(player, "score")) ==> PlayerData(player).score == Some(JInt(0))
    ensures Unset(Index(player, "headshots")) ==> PlayerData(player).headshots == Some(JInt(0))
  {
  }

  /** `is_array($v)`. */
  predicate IsArray(v: Option<Json>)
  {
    v.Some? && (v.value.JList? || v.value.JObj?)
  }

  /** The entries the weapon loop visits: those of a non-empty array, nothing otherwise. */
  function WeaponEntries(weapons: Option<Json>): (r: seq<Json>)
    ensures Empty(weapons) || !IsArray(weapons) ==> r == []
  {
    if !Empty(weapons) && IsArray(weapons) then Elements(weapons) else []
  }

  /** The call with ordinal `call` raises exactly when `failAt` names it. */
  predicate FailsAt(failAt: Option<nat>, call: nat)
  {
    failAt == Some(call)
  }

  /** The server step: nothing when the block is empty, otherwise one upsert (call 0). */
  function ServerPhase(s: Snapshot, server: Option<Json>, failAt: Option<nat>): (r: (Snapshot, Result<Option<nat>, DbError>))
    ensures Empty(server) ==> r == (s, Success(None))
    ensures r.0.players == s.players && r.0.weapons == s.weapons && r.0.nextPlayerId == s.nextPlayerId
    ensures r.1.Success? && !Empty(server) ==>
      && r.1.value.Some? && BindServer(ServerData(server.value)).Some?
      && var v := BindServer(ServerData(server.value)).value;
      && v.key in r.0.servers && r.0.servers[v.key].id == r.1.value.value
      && r.0.servers[v.key].info == v.info
      && r.0.servers[v.key].roundsPlayed == (if v.key in s.servers then s.servers[v.key].roundsPlayed + 1 else 1)
      && r.0.servers.Keys == s.servers.Keys + {v.key}
      && (forall k :: k in s.servers && k != v.key ==> r.0.servers[k] == s.servers[k])
    ensures IdsValid(s) ==> IdsValid(r.0)
  {
    if Empty(server) then (s, Success(None))
    else
      var u := ServerUpsert(s, ServerData(server.value), FailsAt(failAt, 0));
      (u.0, if u.1.Success? then Success(Some(u.1.value)) else Failure(u.1.error))
  }

  /**
   * The weapon loop from the entry at hand on: entries whose name is empty are
   * skipped; a name that is an array raises a TypeError; every other entry is
   * one `updateWeaponStats` call, numbered from `call`. The first raise ends the loop.
   */
  function WeaponPhase(s: Snapshot, playerId: nat, entries: seq<Json>, call: nat, failAt: Option<nat>): (r: (Snapshot, Outcome<DbError>))
    ensures r.0.players == s.players && r.0.servers == s.servers
    ensures r.0.nextPlayerId == s.nextPlayerId && r.0.nextServerId == s.nextServerId
    ensures IdsValid(s) ==> IdsValid(r.0)
    decreases |entries|
  {
    if entries == [] then (s, Pass)
    else
      var name := Index(entries[0], "name");
      if Empty(name) then WeaponPhase(s, playerId, entries[1..], call, failAt)
      else match AsText(name.value)
        case None => (s, Fail(BadValue))
        case Some(weapon) =>
          var u := WeaponUpdate(s, playerId, weapon, WeaponStats(entries[0]), FailsAt(failAt, call));
          if u.1.Fail? then u
          else WeaponPhase(u.0, playerId, entries[1..], call + 1, failAt)
  }

  /**
   * The weapon loop touches only rows of the reporting player: every other row
   * keeps its counters, no row disappears, and each new row is the player's.
   */
  lemma {:induction false} WeaponPhaseTouchesOnlyPlayer(s: Snapshot, playerId: nat, entries: seq<Json>, call: nat, failAt: Option<nat>)
    ensures var r := WeaponPhase(s, playerId, entries, call, failAt);
      && s.weapons.Keys <= r.0.weapons.Keys
      && (forall k :: k in s.weapons && k.playerId != playerId ==> r.0.weapons[k] == s.weapons[k])
      && (forall k :: k in r.0.weapons && k !in s.weapons ==> k.playerId == playerId)
    decreases |entries|
  {
    if entries != [] {
      var name := Index(entries[0], "name");
      if Empty(name) {
        WeaponPhaseTouchesOnlyPlayer(s, playerId, entries[1..], call, failAt);
      } else if AsText(name.value).Some? {
        var u := WeaponUpdate(s, playerId, AsText(name.value).value, WeaponStats(entries[0]), FailsAt(failAt, call));
        if u.1.Pass? {
          WeaponPhaseTouchesOnlyPlayer(u.0, playerId, entries[1..], call + 1, failAt);
        }
      }
    }
  }

  /** Entries whose names are all empty are all skipped: nothing is written and nothing can raise. */
  lemma {:induction false} UnnamedWeaponsSkipped(s: Snapshot, playerId: nat, entries: seq<Json>, call: nat, failAt: Option<nat>)
    requires forall j :: 0 <= j < |entries| ==> Empty(Index(entries[j], "name"))
    ensures WeaponPhase(s, playerId, entries, call, failAt) == (s, Pass)
    decreases |entries|
  {
    if entries != [] {
      assert forall j :: 0 <= j < |entries| - 1 ==> entries[1..][j] == entries[j + 1];
      UnnamedWeaponsSkipped(s, playerId, entries[1..], call, failAt);
    }
  }

  /** The weapon an entry is counted under: its name as text, when the name is not PHP-empty. */
  function EntryWeapon(e: Json): (r: Option<string>)
    ensures Empty(Index(e, "name")) ==> r == None
    ensures !Empty(Index(e, "name")) ==> r == AsText(Index(e, "name").value)
  {
    var name := Index(e, "name");
    if Empty(name) then None else AsText(name.value)
  }

  /** The counters that the entries naming `weapon` carry, added up. */
  function WeaponDeltas(entries: seq<Json>, weapon: string): WeaponTotals
    decreases |entries|
  {
    if entries == [] then NoWeaponTotals
    else
      var rest := WeaponDeltas(entries[1..], weapon);
      if EntryWeapon(entries[0]) == Some(weapon) && BindWeapon(WeaponStats(entries[0])).Some?
      then AddWeaponTotals(BindWeapon(WeaponStats(entries[0])).value, rest)
      else rest
  }

  /** Some entry names `weapon`. */
  predicate Names(entries: seq<Json>, weapon: string)
  {
    exists j :: 0 <= j < |entries| && EntryWeapon(entries[j]) == Some(weapon)
  }

  lemma NamesSplit(entries: seq<Json>, weapon: string)
    requires entries != []
    ensures Names(entries, weapon) <==> EntryWeapon(entries[0]) == Some(weapon) || Names(entries[1..], weapon)
  {
    if Names(entries, weapon) {
      var j :| 0 <= j < |entries| && EntryWeapon(entries[j]) == Some(weapon);
      if j != 0 {
        assert entries[1..][j - 1] == entries[j];
      }
    }
    if Names(entries[1..], weapon) {
      var j :| 0 <= j < |entries[1..]| && EntryWeapon(entries[1..][j]) == Some(weapon);
      assert entries[j + 1] == entries[1..][j];
    }
  }

  /** One completed update: the named weapon's row grows by the entry's counters, the player's other rows stay. */
  lemma WeaponUpdateRow(s: Snapshot, playerId: nat, weapon: string, stats: WeaponArray, storeFails: bool, w: string)
    requires WeaponUpdate(s, playerId, weapon, stats, storeFails).1.Pass?
    ensures WeaponRow(WeaponUpdate(s, playerId, weapon, stats, storeFails).0.weapons, WeaponKey(playerId, w))
            == if w == weapon then AddWeaponTotals(WeaponRow(s.weapons, WeaponKey(playerId, w)), BindWeapon(stats).value)
               else WeaponRow(s.weapons, WeaponKey(playerId, w))
  {
  }

  /**
   * When the loop completes, each of the player's weapon rows holds its old
   * counters (0 for a row that did not exist) plus those of every entry
   * naming that weapon, repeated names included.
   */
  lemma WeaponPhaseAccumulates(s: Snapshot, playerId: nat, entries: seq<Json>, call: nat, failAt: Option<nat>)
    requires WeaponPhase(s, playerId, entries, call, failAt).1.Pass?
    ensures var r := WeaponPhase(s, playerId, entries, call, failAt);
      forall w :: WeaponRow(r.0.weapons, WeaponKey(playerId, w))
                  == AddWeaponTotals(WeaponRow(s.weapons, WeaponKey(playerId, w)), WeaponDeltas(entries, w))
  {
    forall w {
      WeaponRowAccumulates(s, playerId, entries, call, failAt, w);
    }
  }

  lemma {:induction false} WeaponRowAccumulates(s: Snapshot, playerId: nat, entries: seq<Json>, call: nat, failAt: Option<nat>, w: string)
    requires WeaponPhase(s, playerId, entries, call, failAt).1.Pass?
    ensures WeaponRow(WeaponPhase(s, playerId, entries, call, failAt).0.weapons, WeaponKey(playerId, w))
            == AddWeaponTotals(WeaponRow(s.weapons, WeaponKey(playerId, w)), WeaponDeltas(entries, w))
    decreases |entries|, 1
  {
    if entries == [] {
      AddNoWeaponTotals(WeaponRow(s.weapons, WeaponKey(playerId, w)));
    } else if Empty(Index(entries[0], "name")) {
      WeaponRowSkips(s, playerId, entries, call, failAt, w);
    } else {
      WeaponRowUpdates(s, playerId, entries, call, failAt, w);
    }
  }

  /** An entry without a name neither writes nor counts. */
  lemma {:induction false} WeaponRowSkips(s: Snapshot, playerId: nat, entries: seq<Json>, call: nat, failAt: Option<nat>, w: string)
    requires entries != [] && Empty(Index(entries[0], "name"))
    requires WeaponPhase(s, playerId, entries, call, failAt).1.Pass?
    ensures WeaponRow(WeaponPhase(s, playerId, entries, call, failAt).0.weapons, WeaponKey(playerId, w))
            == AddWeaponTotals(WeaponRow(s.weapons, WeaponKey(playerId, w)), WeaponDeltas(entries, w))
    decreases |entries|, 0
  {
    var rest := entries[1..];
    assert WeaponPhase(s, playerId, entries, call, failAt) == WeaponPhase(s, playerId, rest, call, failAt);
    assert WeaponDeltas(entries, w) == WeaponDeltas(rest, w);
    WeaponRowAccumulates(s, playerId, rest, call, failAt, w);
  }

  /** A named entry adds its counters to its weapon's row, and the loop goes on from the store it leaves. */
  lemma {:induction false} WeaponRowUpdates(s: Snapshot, playerId: nat, entries: seq<Json>, call: nat, failAt: Option<nat>, w: string)
    requires entries != [] && !Empty(Index(entries[0], "name"))
    requires WeaponPhase(s, playerId, entries, call, failAt).1.Pass?
    ensures WeaponRow(WeaponPhase(s, playerId, entries, call, failAt).0.weapons, WeaponKey(playerId, w))
            == AddWeaponTotals(WeaponRow(s.weapons, WeaponKey(playerId, w)), WeaponDeltas(entries, w))
    decreases |entries|, 0
  {
    var key := WeaponKey(playerId, w);
    var rest := entries[1..];
    var w0 := AsText(Index(entries[0], "name").value).value;
    var stats := WeaponStats(entries[0]);
    var u := WeaponUpdate(s, playerId, w0, stats, FailsAt(failAt, call));
    assert u.1.Pass?;
    var d := BindWeapon(stats).value;
    var after := WeaponPhase(u.0, playerId, rest, call + 1, failAt).0;
    assert WeaponPhase(s, playerId, entries, call, failAt).0 == after;
    WeaponRowAccumulates(u.0, playerId, rest, call + 1, failAt, w);
    WeaponUpdateRow(s, playerId, w0, stats, FailsAt(failAt, call), w);
    if w == w0 {
      assert EntryWeapon(entries[0]) == Some(w);
      assert WeaponDeltas(entries, w) == AddWeaponTotals(d, WeaponDeltas(rest, w));
      AddWeaponTotalsAssociates(WeaponRow(s.weapons, key), d, WeaponDeltas(rest, w));
    } else {
      assert WeaponDeltas(entries, w) == WeaponDeltas(rest, w);
    }
  }

  /** When the loop completes, a row of the player exists exactly when it existed before or some entry names its weapon. */
  lemma {:induction false} WeaponPhaseAddsNamedRows(s: Snapshot, playerId: nat, entries: seq<Json>, call: nat, failAt: Option<nat>)
    requires WeaponPhase(s, playerId, entries, call, failAt).1.Pass?
    ensures var r := WeaponPhase(s, playerId, entries, call, failAt);
      forall w :: WeaponKey(playerId, w) in r.0.weapons <==> WeaponKey(playerId, w) in s.weapons || Names(entries, w)
    decreases |entries|
  {
    if entries != [] {
      forall w {
        NamesSplit(entries, w);
      }
      var name := Index(entries[0], "name");
      if Empty(name) {
        WeaponPhaseAddsNamedRows(s, playerId, entries[1..], call, failAt);
      } else {
        var w0 := AsText(name.value).value;
        var u := WeaponUpdate(s, playerId, w0, WeaponStats(entries[0]), FailsAt(failAt, call));
        WeaponPhaseAddsNamedRows(u.0, playerId, entries[1..], call + 1, failAt);
      }
    }
  }

  /** The player step after the server step; the player call is numbered 1 when a server call preceded it, else 0. */
  function PlayerPhase(s: Snapshot, data: Json, failAt: Option<nat>): (r: (Snapshot, Result<(nat, Option<nat>), DbError>))
    requires !MissingPlayer(data)
    ensures r.1.Success? ==> (r.1.value.1.None? <==> Empty(Index(data, "server")))
    ensures r.0.weapons == s.weapons
  {
    var server := Index(data, "server");
    var sp := ServerPhase(s, server, failAt);
    if sp.1.Failure? then (sp.0, Failure(sp.1.error))
    else
      var pp := PlayerUpsert(sp.0, PlayerData(PlayerOf(data)), FailsAt(failAt, FirstPlayerCall(data)));
      if pp.1.Failure? then (pp.0, Failure(pp.1.error))
      else (pp.0, Success((pp.1.value, sp.1.value)))
  }

  /**
   * After a successful player step the player's row is renamed, its counters
   * grown by the report (a new row holds the report's counters) and its id
   * returned: the existing id for a known hash. Every other player is kept.
   */
  lemma PlayerPhasePlayer(s: Snapshot, data: Json, failAt: Option<nat>)
    requires !MissingPlayer(data) && PlayerPhase(s, data, failAt).1.Success?
    ensures var r := PlayerPhase(s, data, failAt);
      && BindPlayer(PlayerData(PlayerOf(data))).Some?
      && var v := BindPlayer(PlayerData(PlayerOf(data))).value;
      && v.hash in r.0.players
      && r.0.players[v.hash].id == r.1.value.0
      && r.0.players[v.hash].name == v.name
      && r.0.players[v.hash].totals == (if v.hash in s.players then AddPlayerTotals(s.players[v.hash].totals, v.delta) else v.delta)
      && (v.hash in s.players ==> r.1.value.0 == s.players[v.hash].id)
      && (forall h :: h in s.players && h != v.hash ==> h in r.0.players && r.0.players[h] == s.players[h])
  {
    var sp := ServerPhase(s, Index(data, "server"), failAt);
    assert sp.1.Success? && sp.0.players == s.players;
  }

  /**
   * After a successful player step with a server block that server's row is
   * overwritten, counts one more round and gives the returned id; every other
   * server is kept, and without a server block no server row changes.
   */
  lemma PlayerPhaseServers(s: Snapshot, data: Json, failAt: Option<nat>)
    requires !MissingPlayer(data) && PlayerPhase(s, data, failAt).1.Success?
    ensures var r := PlayerPhase(s, data, failAt);
      && (r.1.value.1.None? ==> r.0.servers == s.servers)
      && (r.1.value.1.Some? ==>
            && BindServer(ServerData(Index(data, "server").value)).Some?
            && var v := BindServer(ServerData(Index(data, "server").value)).value;
            && v.key in r.0.servers
            && r.0.servers[v.key].id == r.1.value.1.value
            && r.0.servers[v.key].info == v.info
            && r.0.servers[v.key].roundsPlayed == (if v.key in s.servers then s.servers[v.key].roundsPlayed + 1 else 1)
            && r.0.servers.Keys == s.servers.Keys + {v.key}
            && forall k :: k in s.servers && k != v.key ==> r.0.servers[k] == s.servers[k])
  {
    var sp := ServerPhase(s, Index(data, "server"), failAt);
    assert sp.1.Success?;
  }

  /** A successful player step keeps the store's id invariant. */
  lemma PlayerPhaseKeepsIds(s: Snapshot, data: Json, failAt: Option<nat>)
    requires !MissingPlayer(data) && IdsValid(s)
    ensures IdsValid(PlayerPhase(s, data, failAt).0)
  {
    var sp := ServerPhase(s, Index(data, "server"), failAt);
  }

  /** The ordinal of the player call: 1 after a server call, otherwise 0. */
  function FirstPlayerCall(data: Json): (call: nat)
    ensures call == 0 <==> Empty(Index(data, "server"))
  {
    if Empty(Index(data, "server")) then 0 else 1
  }

  /** What the transaction leaves at commit: the store, the player id and the server id; a failure rolls back. */
  function Transaction(s: Snapshot, data: Json, failAt: Option<nat>): (r: Result<(Snapshot, nat, Option<nat>), DbError>)
    requires !MissingPlayer(data)
    ensures r.Success? ==> (r.value.2.None? <==> Empty(Index(data, "server")))
  {
    var pp := PlayerPhase(s, data, failAt);
    if pp.1.Failure? then Failure(pp.1.error)
    else
      var wp := WeaponPhase(pp.0, pp.1.value.0, WeaponEntries(Index(data, "weapons")), FirstPlayerCall(data) + 1, failAt);
      if wp.1.Fail? then Failure(wp.1.error)
      else Success((wp.0, pp.1.value.0, pp.1.value.1))
  }

  /**
   * A committed report adds to the weapon rows of its player: each of that
   * player's rows holds its old counters plus those of every weapon entry
   * naming it, and a row is added for each newly named weapon.
   */
  lemma TransactionWeapons(s: Snapshot, data: Json, failAt: Option<nat>)
    requires !MissingPlayer(data) && Transaction(s, data, failAt).Success?
    ensures var t := Transaction(s, data, failAt).value;
      var entries := WeaponEntries(Index(data, "weapons"));
      && (forall w :: WeaponRow(t.0.weapons, WeaponKey(t.1, w))
                      == AddWeaponTotals(WeaponRow(s.weapons, WeaponKey(t.1, w)), WeaponDeltas(entries, w)))
      && (forall w :: WeaponKey(t.1, w) in t.0.weapons <==> WeaponKey(t.1, w) in s.weapons || Names(entries, w))
  {
    var pp := TransactionSteps(s, data, failAt);
    WeaponPhaseOver(s, pp.0, pp.1.value.0, WeaponEntries(Index(data, "weapons")), FirstPlayerCall(data) + 1, failAt);
  }

  /**
   * A committed report changes the weapon rows of its player only: the rows
   * of every other player are kept, every new row is the player's, and a
   * report without weapon entries changes no weapon row.
   */
  lemma TransactionWeaponsFrame(s: Snapshot, data: Json, failAt: Option<nat>)
    requires !MissingPlayer(data) && Transaction(s, data, failAt).Success?
    ensures var t := Transaction(s, data, failAt).value;
      && (forall k :: k in s.weapons && k.playerId != t.1 ==> k in t.0.weapons && t.0.weapons[k] == s.weapons[k])
      && (forall k :: k in t.0.weapons && k !in s.weapons ==> k.playerId == t.1)
      && (WeaponEntries(Index(data, "weapons")) == [] ==> t.0.weapons == s.weapons)
  {
    var pp := TransactionSteps(s, data, failAt);
    WeaponPhaseOver(s, pp.0, pp.1.value.0, WeaponEntries(Index(data, "weapons")), FirstPlayerCall(data) + 1, failAt);
  }

  /** A committed report is the player step followed by the weapon step, which passes. */
  lemma TransactionSteps(s: Snapshot, data: Json, failAt: Option<nat>) returns (pp: (Snapshot, Result<(nat, Option<nat>), DbError>))
    requires !MissingPlayer(data) && Transaction(s, data, failAt).Success?
    ensures pp == PlayerPhase(s, data, failAt) && pp.1.Success? && pp.0.weapons == s.weapons
    ensures var wp := WeaponPhase(pp.0, pp.1.value.0, WeaponEntries(Index(data, "weapons")), FirstPlayerCall(data) + 1, failAt);
      && wp.1.Pass?
      && Transaction(s, data, failAt).value == (wp.0, pp.1.value.0, pp.1.value.1)
  {
    pp := PlayerPhase(s, data, failAt);
  }

  /** A failing player step fails the transaction with its error. */
  lemma TransactionPlayerFails(s: Snapshot, data: Json, failAt: Option<nat>)
    requires !MissingPlayer(data) && PlayerPhase(s, data, failAt).1.Failure?
    ensures Transaction(s, data, failAt) == Failure(PlayerPhase(s, data, failAt).1.error)
  {
  }

  /** A failing weapon step after a passing player step fails the transaction with its error. */
  lemma TransactionWeaponFails(s: Snapshot, data: Json, failAt: Option<nat>, p: Snapshot, playerId: nat)
    requires !MissingPlayer(data) && PlayerPhase(s, data, failAt).1.Success?
    requires p == PlayerPhase(s, data, failAt).0 && playerId == PlayerPhase(s, data, failAt).1.value.0
    requires WeaponPhase(p, playerId, WeaponEntries(Index(data, "weapons")), FirstPlayerCall(data) + 1, failAt).1.Fail?
    ensures Transaction(s, data, failAt)
            == Failure(WeaponPhase(p, playerId, WeaponEntries(Index(data, "weapons")), FirstPlayerCall(data) + 1, failAt).1.error)
  {
  }

  /** Passing player and weapon steps commit the weapon step's state with the player and server ids. */
  lemma TransactionCommits(s: Snapshot, data: Json, failAt: Option<nat>, p: Snapshot, ids: (nat, Option<nat>))
    requires !MissingPlayer(data) && PlayerPhase(s, data, failAt) == (p, Success(ids))
    requires WeaponPhase(p, ids.0, WeaponEntries(Index(data, "weapons")), FirstPlayerCall(data) + 1, failAt).1.Pass?
    ensures Transaction(s, data, failAt)
            == Success((WeaponPhase(p, ids.0, WeaponEntries(Index(data, "weapons")), FirstPlayerCall(data) + 1, failAt).0, ids.0, ids.1))
  {
  }

  /** The weapon step's effect, stated against a snapshot with the same weapon rows as the one it starts from. */
  lemma WeaponPhaseOver(s: Snapshot, p: Snapshot, playerId: nat, entries: seq<Json>, call: nat, failAt: Option<nat>)
    requires p.weapons == s.weapons && WeaponPhase(p, playerId, entries, call, failAt).1.Pass?
    ensures var t := WeaponPhase(p, playerId, entries, call, failAt).0;
      && (forall w :: WeaponRow(t.weapons, WeaponKey(playerId, w))
                      == AddWeaponTotals(WeaponRow(s.weapons, WeaponKey(playerId, w)), WeaponDeltas(entries, w)))
      && (forall w :: WeaponKey(playerId, w) in t.weapons <==> WeaponKey(playerId, w) in s.weapons || Names(entries, w))
      && (forall k :: k in s.weapons && k.playerId != playerId ==> k in t.weapons && t.weapons[k] == s.weapons[k])
      && (forall k :: k in t.weapons && k !in s.weapons ==> k.playerId == playerId)
      && (entries == [] ==> t.weapons == s.weapons)
  {
    WeaponPhaseAccumulates(p, playerId, entries, call, failAt);
    WeaponPhaseAddsNamedRows(p, playerId, entries, call, failAt);
    WeaponPhaseTouchesOnlyPlayer(p, playerId, entries, call, failAt);
  }

  /**
   * A committed report leaves the player's row renamed, its counters grown by
   * the report (a new row holds the report's counters), and its id returned:
   * the existing id for a known hash. Every other player's row is kept.
   */
  lemma TransactionPlayer(s: Snapshot, data: Json, failAt: Option<nat>)
    requires !MissingPlayer(data) && Transaction(s, data, failAt).Success?
    ensures var t := Transaction(s, data, failAt).value;
      && BindPlayer(PlayerData(PlayerOf(data))).Some?
      && var v := BindPlayer(PlayerData(PlayerOf(data))).value;
      && v.hash in t.0.players
      && t.0.players[v.hash].id == t.1
      && t.0.players[v.hash].name == v.name
      && t.0.players[v.hash].totals == (if v.hash in s.players then AddPlayerTotals(s.players[v.hash].totals, v.delta) else v.delta)
      && (v.hash in s.players ==> t.1 == s.players[v.hash].id)
      && (forall h :: h in s.players && h != v.hash ==> h in t.0.players && t.0.players[h] == s.players[h])
  {
    var pp := TransactionSteps(s, data, failAt);
    var wp := WeaponPhase(pp.0, pp.1.value.0, WeaponEntries(Index(data, "weapons")), FirstPlayerCall(data) + 1, failAt);
    assert wp.0.players == pp.0.players;
    PlayerPhasePlayer(s, data, failAt);
  }

  /** A committed report keeps the store's id invariant. */
  lemma TransactionKeepsIds(s: Snapshot, data: Json, failAt: Option<nat>)
    requires !MissingPlayer(data) && Transaction(s, data, failAt).Success? && IdsValid(s)
    ensures IdsValid(Transaction(s, data, failAt).value.0)
  {
    var pp := TransactionSteps(s, data, failAt);
    var wp := WeaponPhase(pp.0, pp.1.value.0, WeaponEntries(Index(data, "weapons")), FirstPlayerCall(data) + 1, failAt);
    PlayerPhaseKeepsIds(s, data, failAt);
  }

  /**
   * A committed report with a server block overwrites that server's state,
   * counts one more round and returns its id; every other server's row is
   * kept, and without a server block no server row changes.
   */
  lemma TransactionServers(s: Snapshot, data: Json, failAt: Option<nat>)
    requires !MissingPlayer(data) && Transaction(s, data, failAt).Success?
    ensures var t := Transaction(s, data, failAt).value;
      && (t.2.None? ==> t.0.servers == s.servers)
      && (t.2.Some? ==>
            && BindServer(ServerData(Index(data, "server").value)).Some?
            && var v := BindServer(ServerData(Index(data, "server").value)).value;
            && v.key in t.0.servers
            && t.0.servers[v.key].id == t.2.value
            && t.0.servers[v.key].info == v.info
            && t.0.servers[v.key].roundsPlayed == (if v.key in s.servers then s.servers[v.key].roundsPlayed + 1 else 1)
            && t.0.servers.Keys == s.servers.Keys + {v.key}
            && forall k :: k in s.servers && k != v.key ==> t.0.servers[k] == s.servers[k])
  {
    var pp := TransactionSteps(s, data, failAt);
    PlayerPhaseServers(s, data, failAt);
    var wp := WeaponPhase(pp.0, pp.1.value.0, WeaponEntries(Index(data, "weapons")), FirstPlayerCall(data) + 1, failAt);
  }

  /**
   * The calls are numbered in the order the endpoint makes them: call 0 is
   * the server upsert when a server block was sent, the player upsert
   * otherwise, and the player upsert is always made. A store that raises on
   * either fails the whole transaction.
   */
  lemma FirstCallAlwaysMade(s: Snapshot, data: Json)
    requires !MissingPlayer(data)
    ensures Transaction(s, data, Some(0)).Failure?
    ensures Transaction(s, data, Some(FirstPlayerCall(data))).Failure?
    ensures Empty(Index(data, "server")) ==> FirstPlayerCall(data) == 0
    ensures !Empty(Index(data, "server")) ==> ServerPhase(s, Index(data, "server"), Some(0)).1.Failure?
  {
  }

  /**
   * One request against the store: the response and the store afterwards.
   * `failAt` names the upsert call, counted from 0, at which the store raises.
   */
  function Ingest(s: Snapshot, req: Request, failAt: Option<nat>): (r: (Snapshot, Response))
    ensures req.httpMethod != "POST" ==> r == (s, MethodNotAllowed)
    ensures req.httpMethod == "POST" && req.body.None? ==> r == (s, InvalidJson)
    ensures r.1 == MissingPlayerData <==> req.httpMethod == "POST" && req.body.Some? && MissingPlayer(req.body.value)
    // a rejected or failed request leaves every table as it was
    ensures !r.1.Ok? ==> r.0 == s
    ensures r.1.Ok? <==>
      req.httpMethod == "POST" && req.body.Some? && !MissingPlayer(req.body.value)
      && Transaction(s, req.body.value, failAt).Success?
    ensures r.1.Ok? ==> (r.0, r.1.playerId, r.1.serverId) == Transaction(s, req.body.value, failAt).value
    // a raise inside the transaction is answered with 500 after the rollback
    ensures r.1 == InternalError <==>
      req.httpMethod == "POST" && req.body.Some? && !MissingPlayer(req.body.value)
      && Transaction(s, req.body.value, failAt).Failure?
  {
    if req.httpMethod != "POST" then (s, MethodNotAllowed)
    else if req.body.None? then (s, InvalidJson)
    else if MissingPlayer(req.body.value) then (s, MissingPlayerData)
    else
      var t := Transaction(s, req.body.value, failAt);
      if t.Success? then (t.value.0, Ok(t.value.1, t.value.2)) else (s, InternalError)
  }

  /**
   * The `foreach` over the weapon entries: one `updateWeaponStats` call per
   * entry with a non-empty name, stopping at the first raise.
   */
  method UpdateWeapons(db: Database, playerId: nat, entries: seq<Json>, firstCall: nat, failAt: Option<nat>)
    returns (r: Outcome<DbError>)
    modifies db
    ensures (db.State(), r) == WeaponPhase(old(db.State()), playerId, entries, firstCall, failAt)
  {
    ghost var target := WeaponPhase(db.State(), playerId, entries, firstCall, failAt);
    var call := firstCall;
    var i := 0;
    while i < |entries|
      invariant 0 <= i <= |entries|
      invariant WeaponPhase(db.State(), playerId, entries[i..], call, failAt) == target
    {
      assert entries[i..][1..] == entries[i + 1..];
      var o, next := UpdateEntry(db, playerId, entries[i..], call, failAt);
      if o.Fail? {
        return o;
      }
      call := next;
      i := i + 1;
    }
    r := Pass;
  }

  /**
   * One pass of the weapon loop, on the first of `entries`: skip it when its
   * name is empty, raise on a name that is not text, otherwise update its row.
   * On success `next` is the number of the next store call.
   */
  method UpdateEntry(db: Database, playerId: nat, entries: seq<Json>, call: nat, failAt: Option<nat>)
    returns (r: Outcome<DbError>, next: nat)
    requires entries != []
    modifies db
    ensures r.Fail? ==> (db.State(), r) == WeaponPhase(old(db.State()), playerId, entries, call, failAt)
    ensures r.Pass? ==> WeaponPhase(db.State(), playerId, entries[1..], next, failAt)
                        == WeaponPhase(old(db.State()), playerId, entries, call, failAt)
  {
    var name := Index(entries[0], "name");
    if Empty(name) {
      return Pass, call;
    }
    var weapon := AsText(name.value);
    if weapon.None? {
      return Fail(BadValue), call;
    }
    r := UpdateWeaponStats(db, playerId, weapon.value, WeaponStats(entries[0]), FailsAt(failAt, call));
    next := call + 1;
  }

  /** The server upsert, when a server block was sent, then the player upsert. */
  method UpsertServerAndPlayer(db: Database, data: Json, failAt: Option<nat>) returns (r: Result<(nat, Option<nat>), DbError>)
    requires !MissingPlayer(data)
    modifies db
    ensures (db.State(), r) == PlayerPhase(old(db.State()), data, failAt)
  {
    var server := Index(data, "server");
    var serverId: Option<nat> := None;
    if !Empty(server) {
      var sr := UpsertServer(db, ServerData(server.value), FailsAt(failAt, 0));
      if sr.Failure? {
        return Failure(sr.error);
      }
      serverId := Some(sr.value);
    }
    var pr := UpsertPlayer(db, PlayerData(PlayerOf(data)), FailsAt(failAt, FirstPlayerCall(data)));
    if pr.Failure? {
      return Failure(pr.error);
    }
    r := Success((pr.value, serverId));
  }

  /** The endpoint: gate the request, then run the upserts in one transaction. */
  method Track(db: Database, req: Request, failAt: Option<nat>) returns (resp: Response)
    modifies db
    ensures (db.State(), resp) == Ingest(old(db.State()), req, failAt)
  {
    if req.httpMethod != "POST" {
      return MethodNotAllowed;
    }
    if req.body.None? {
      return InvalidJson;
    }
    var data := req.body.value;
    var player := Index(data, "player");
    if Empty(player) || Empty(At(player, "name")) || Empty(At(player, "hash")) {
      return MissingPlayerData;
    }
    var ids := RunTransaction(db, data, failAt);
    if ids.Failure? {
      return InternalError;
    }
    resp := Ok(ids.value.0, ids.value.1);
  }

  /** The weapon loop over the report's `weapons` list, when that is a non-empty array. */
  method RunWeapons(db: Database, data: Json, playerId: nat, failAt: Option<nat>) returns (o: Outcome<DbError>)
    modifies db
    ensures (db.State(), o) == WeaponPhase(old(db.State()), playerId, WeaponEntries(Index(data, "weapons")), FirstPlayerCall(data) + 1, failAt)
  {
    var weapons := Index(data, "weapons");
    var entries: seq<Json> := [];
    if !Empty(weapons) && IsArray(weapons) {
      entries := Elements(weapons);
    }
    o := UpdateWeapons(db, playerId, entries, FirstPlayerCall(data) + 1, failAt);
  }

  /**
   * `beginTransaction` … `commit`: the server and player upserts, then the
   * weapon loop; on any raise, `rollBack` to the state at the start.
   */
  method RunTransaction(db: Database, data: Json, failAt: Option<nat>) returns (r: Result<(nat, Option<nat>), DbError>)
    requires !MissingPlayer(data)
    modifies db
    ensures r.Failure? <==> Transaction(old(db.State()), data, failAt).Failure?
    ensures r.Failure? ==> db.State() == old(db.State())
    ensures r.Success? ==> (db.State(), r.value.0, r.value.1) == Transaction(old(db.State()), data, failAt).value
  {
    var before := db.State();
    var ids := UpsertServerAndPlayer(db, data, failAt);
    if ids.Failure? {
      TransactionPlayerFails(before, data, failAt);
      db.Restore(before);
      return Failure(ids.error);
    }
    var mid := db.State();
    var o := RunWeapons(db, data, ids.value.0, failAt);
    if o.Fail? {
      TransactionWeaponFails(before, data, failAt, mid, ids.value.0);
      db.Restore(before);
      return Failure(o.error);
    }
    TransactionCommits(before, data, failAt, mid, ids.value);
    r := Success(ids.value);
  }

  /**
   * A report body carrying only a player block with a name, a hash, kills and
   * deaths. The name is any JSON value, as the endpoint accepts one.
   */
  function PlayerReport(name: Json, hash: string, kills: int, deaths: int): Json
  {
    JObj([Member("player", PlayerBlock(name, hash, kills, deaths))])
  }

  /** The player block of `PlayerReport`. */
  function PlayerBlock(name: Json, hash: string, kills: int, deaths: int): Json
  {
    JObj([Member("name", name), Member("hash", JStr(hash)), Member("kills", JInt(kills)), Member("deaths", JInt(deaths))])
  }

  lemma PlayerBlockLacks(name: Json, hash: string, kills: int, deaths: int, key: string)
    requires key != "name" && key != "hash" && key != "kills" && key != "deaths"
    ensures Index(PlayerBlock(name, hash, kills, deaths), key) == None
  {
    var mName, mHash := Member("name", name), Member("hash", JStr(hash));
    var mKills, mDeaths := Member("kills", JInt(kills)), Member("deaths", JInt(deaths));
    assert [mName, mHash, mKills, mDeaths] == [mName] + [mHash] + [mKills] + [mDeaths];
    LookupSkipsLast([mName] + [mHash] + [mKills], mDeaths, key);
    LookupSkipsLast([mName] + [mHash], mKills, key);
    LookupSkipsLast([mName], mHash, key);
    LookupSkipsLast([], mName, key);
  }

  lemma PlayerBlockHas(name: Json, hash: string, kills: int, deaths: int)
    ensures var p := PlayerBlock(name, hash, kills, deaths);
      && Index(p, "name") == Some(name) && Index(p, "hash") == Some(JStr(hash))
      && Index(p, "kills") == Some(JInt(kills)) && Index(p, "deaths") == Some(JInt(deaths))
  {
    var mName, mHash := Member("name", name), Member("hash", JStr(hash));
    var mKills, mDeaths := Member("kills", JInt(kills)), Member("deaths", JInt(deaths));
    assert [mName, mHash, mKills, mDeaths] == [mName] + [mHash] + [mKills] + [mDeaths];
    LookupSkipsLast([mName] + [mHash] + [mKills], mDeaths, "name");
    LookupSkipsLast([mName] + [mHash], mKills, "name");
    LookupSkipsLast([mName], mHash, "name");
    LookupSkipsLast([mName] + [mHash] + [mKills], mDeaths, "hash");
    LookupSkipsLast([mName] + [mHash], mKills, "hash");
    LookupSkipsLast([mName] + [mHash] + [mKills], mDeaths, "kills");
  }

  /** How the endpoint reads a player-only report: no server block, no weapons, and the player array below. */
  lemma PlayerReportRead(name: Json, hash: string, kills: int, deaths: int)
    ensures var body := PlayerReport(name, hash, kills, deaths);
      && Index(body, "server") == None && Index(body, "weapons") == None
      && Index(body, "player") == Some(PlayerBlock(name, hash, kills, deaths))
      && Index(PlayerBlock(name, hash, kills, deaths), "name") == Some(name)
      && Index(PlayerBlock(name, hash, kills, deaths), "hash") == Some(JStr(hash))
      && PlayerData(PlayerBlock(name, hash, kills, deaths)) == PlayerArray(name, JStr(hash),
           Some(JInt(kills)), Some(JInt(deaths)), Some(JInt(0)), Some(JInt(0)), Some(JInt(0)),
           Some(JInt(1)), Some(JInt(0)), Some(JInt(0)), Some(JInt(0)), Some(JInt(0)))
  {
    var p := PlayerBlock(name, hash, kills, deaths);
    assert "server"[0] != "player"[0];
    LookupSkipsLast([], Member("player", p), "server");
    LookupSkipsLast([], Member("player", p), "weapons");
    PlayerBlockHas(name, hash, kills, deaths);
    assert "rounds"[0] != "deaths"[0] && "score"[0] != "kills"[0];
    assert "wins"[0] != "name"[0] && "wins"[0] != "hash"[0];
    PlayerBlockLacks(name, hash, kills, deaths, "suicides");
    PlayerBlockLacks(name, hash, kills, deaths, "teamkills");
    PlayerBlockLacks(name, hash, kills, deaths, "playtime");
    PlayerBlockLacks(name, hash, kills, deaths, "rounds");
    PlayerBlockLacks(name, hash, kills, deaths, "wins");
    PlayerBlockLacks(name, hash, kills, deaths, "losses");
    PlayerBlockLacks(name, hash, kills, deaths, "score");
    PlayerBlockLacks(name, hash, kills, deaths, "headshots");
  }

  /**
   * A player-only report from a store that does not fail adds its counters,
   * one round, and renames the row to the text the name binds as: "Array"
   * when an array or object is sent as the name.
   */
  lemma PlayerReportAccumulates(s: Snapshot, name: Json, hash: string, kills: int, deaths: int)
    requires !Empty(Some(name)) && !PhpText.IsEmptyString(hash)
    ensures var r := Ingest(s, Request("POST", Some(PlayerReport(name, hash, kills, deaths))), None);
      var delta := PlayerTotals(kills, deaths, 0, 0, 0, 1, 0, 0, 0, 0);
      && r.1.Ok? && r.1.serverId == None
      && hash in r.0.players && Some(r.0.players[hash].name) == AsBoundText(name)
      && r.0.players[hash].totals == (if hash in s.players then AddPlayerTotals(s.players[hash].totals, delta) else delta)
      && r.1.playerId == (if hash in s.players then s.players[hash].id else s.nextPlayerId)
      && r.0.servers == s.servers && r.0.weapons == s.weapons
  {
    var body := PlayerReport(name, hash, kills, deaths);
    PlayerReportRead(name, hash, kills, deaths);
    assert !MissingPlayer(body);
    var delta := PlayerTotals(kills, deaths, 0, 0, 0, 1, 0, 0, 0, 0);
    assert BindPlayer(PlayerData(PlayerOf(body))) == Some(PlayerValues(hash, AsBoundText(name).value, delta));
    assert WeaponEntries(Index(body, "weapons")) == [];
    assert Transaction(s, body, None).Success?;
    TransactionPlayer(s, body, None);
    TransactionServers(s, body, None);
    TransactionWeaponsFrame(s, body, None);
  }

  /** The store after a series of requests, each handled by a store that does not fail. */
  function Replay(s: Snapshot, reqs: seq<Request>): Snapshot
    decreases |reqs|
  {
    if reqs == [] then s else Replay(Ingest(s, reqs[0], None).0, reqs[1..])
  }

  /** Replaying one more request continues from where the series left the store. */
  lemma {:induction false} ReplayAppend(s: Snapshot, reqs: seq<Request>, req: Request)
    ensures Replay(s, reqs + [req]) == Ingest(Replay(s, reqs), req, None).0
    decreases |reqs|
  {
    if reqs == [] {
      assert [req][1..] == [];
    } else {
      assert (reqs + [req])[1..] == reqs[1..] + [req];
      ReplayAppend(Ingest(s, reqs[0], None).0, reqs[1..], req);
    }
  }

  /** The player line of a player-only report: the name it is sent under and its kills and deaths. */
  datatype Line = Line(name: string, kills: int, deaths: int)

  /** The requests sending `lines` under one hash, in order. */
  function Reports(hash: string, lines: seq<Line>): (r: seq<Request>)
    ensures |r| == |lines|
  {
    if lines == [] then []
    else [Request("POST", Some(PlayerReport(JStr(lines[0].name), hash, lines[0].kills, lines[0].deaths)))] + Reports(hash, lines[1..])
  }

  /** The counters one line adds: its kills and deaths, and one round. */
  function LineDelta(l: Line): PlayerTotals
  {
    PlayerTotals(l.kills, l.deaths, 0, 0, 0, 1, 0, 0, 0, 0)
  }

  function LinesDelta(lines: seq<Line>): PlayerTotals
  {
    if lines == [] then NoPlayerTotals else AddPlayerTotals(LineDelta(lines[0]), LinesDelta(lines[1..]))
  }

  /**
   * Any series of reports for a known hash, against a store that does not
   * fail, leaves that player's counters at their old values plus the sum of
   * the series' deltas, under the same id and the last name sent.
   */
  lemma {:induction false} ReplayAccumulates(s: Snapshot, hash: string, lines: seq<Line>)
    requires hash in s.players && !PhpText.IsEmptyString(hash)
    requires forall k :: 0 <= k < |lines| ==> !PhpText.IsEmptyString(lines[k].name)
    ensures hash in Replay(s, Reports(hash, lines)).players
    ensures Replay(s, Reports(hash, lines)).players[hash].totals == AddPlayerTotals(s.players[hash].totals, LinesDelta(lines))
    ensures Replay(s, Reports(hash, lines)).players[hash].id == s.players[hash].id
    ensures Replay(s, Reports(hash, lines)).players[hash].name == if lines == [] then s.players[hash].name else lines[|lines| - 1].name
    decreases |lines|
  {
    if lines != [] {
      var l := lines[0];
      PlayerReportAccumulates(s, JStr(l.name), hash, l.kills, l.deaths);
      var s1 := Ingest(s, Request("POST", Some(PlayerReport(JStr(l.name), hash, l.kills, l.deaths))), None).0;
      assert Reports(hash, lines)[1..] == Reports(hash, lines[1..]);
      assert forall k :: 0 <= k < |lines| - 1 ==> lines[1..][k] == lines[k + 1];
      ReplayAccumulates(s1, hash, lines[1..]);
      AddPlayerTotalsAssociates(s.players[hash].totals, LineDelta(l), LinesDelta(lines[1..]));
    }
  }

  /**
   * Starting from an empty store, the first report inserts the row under id 1
   * and every later one adds to it: after a series whose first line is `first`,
   * the row holds the sum of all the lines and the last name sent.
   */
  lemma {:induction false} SeriesFromEmptyStore(hash: string, first: Line, rest: seq<Line>)
    requires !PhpText.IsEmptyString(hash) && !PhpText.IsEmptyString(first.name)
    requires forall k :: 0 <= k < |rest| ==> !PhpText.IsEmptyString(rest[k].name)
    ensures var s := Replay(Snapshot(map[], map[], map[], 1, 1), Reports(hash, [first] + rest));
      && hash in s.players && s.players[hash].id == 1
      && s.players[hash].totals == AddPlayerTotals(LineDelta(first), LinesDelta(rest))
      && s.players[hash].name == if rest == [] then first.name else rest[|rest| - 1].name
  {
    var s0 := Snapshot(map[], map[], map[], 1, 1);
    PlayerReportAccumulates(s0, JStr(first.name), hash, first.kills, first.deaths);
    var req := Request("POST", Some(PlayerReport(JStr(first.name), hash, first.kills, first.deaths)));
    var s1 := Ingest(s0, req, None).0;
    var reqs := Reports(hash, [first] + rest);
    assert reqs[0] == req && reqs[1..] == Reports(hash, rest) by {
      assert ([first] + rest)[0] == first && ([first] + rest)[1..] == rest;
    }
    assert Replay(s0, reqs) == Replay(s1, Reports(hash, rest));
    assert hash in s1.players && s1.players[hash].id == 1 && s1.players[hash].totals == LineDelta(first);
    ReplayAccumulates(s1, hash, rest);
  }

  lemma LinesDeltaPair(a: Line, b: Line)
    ensures LinesDelta([a]) == LineDelta(a)
    ensures LinesDelta([a, b]) == AddPlayerTotals(LineDelta(a), LineDelta(b))
  {
    assert [a][1..] == [] && [a, b][1..] == [b] && [b][1..] == [];
  }

  /** Two identical reports (5 kills, 1 death) for a new hash leave 10 kills, 2 deaths and two rounds. */
  lemma TwoReportsAddUp(name: string, hash: string)
    requires !PhpText.IsEmptyString(hash) && !PhpText.IsEmptyString(name)
    ensures var s := Replay(Snapshot(map[], map[], map[], 1, 1), Reports(hash, [Line(name, 5, 1)] + [Line(name, 5, 1)]));
      && hash in s.players && s.players[hash].id == 1 && s.players[hash].name == name
      && s.players[hash].totals == PlayerTotals(10, 2, 0, 0, 0, 2, 0, 0, 0, 0)
  {
    var a := Line(name, 5, 1);
    LinesDeltaPair(a, a);
    SeriesFromEmptyStore(hash, a, [a]);
  }

  /** A third report under another name renames the row while the counters keep growing. */
  lemma ThirdReportRenames(name: string, newName: string, hash: string)
    requires !PhpText.IsEmptyString(hash) && !PhpText.IsEmptyString(name) && !PhpText.IsEmptyString(newName)
    ensures var s := Replay(Snapshot(map[], map[], map[], 1, 1), Reports(hash, [Line(name, 5, 1)] + [Line(name, 5, 1), Line(newName, 5, 1)]));
      && hash in s.players && s.players[hash].id == 1 && s.players[hash].name == newName
      && s.players[hash].totals == PlayerTotals(15, 3, 0, 0, 0, 3, 0, 0, 0, 0)
  {
    var a, b := Line(name, 5, 1), Line(newName, 5, 1);
    LinesDeltaPair(a, b);
    SeriesFromEmptyStore(hash, a, [a, b]);
  }
}
