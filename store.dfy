/**
 * The statistics store the endpoint writes: the `players`, `servers` and
 * `weapons` tables as maps keyed by their unique keys, plus the
 * auto-increment counters that hand out row ids. `Snapshot` is the value of
 * the whole store; `Database` is the store the upserts change in place.
 */
module Store {
  import opened Wrappers
  import opened JsonValue

  /** The ten cumulative counters of a `players` row. */
  datatype PlayerTotals = PlayerTotals(
    kills: int, deaths: int, suicides: int, teamkills: int, playtime: int,
    roundsPlayed: int, wins: int, losses: int, score: int, headshots: int)

  function AddPlayerTotals(a: PlayerTotals, d: PlayerTotals): PlayerTotals
  {
    PlayerTotals(
      a.kills + d.kills, a.deaths + d.deaths, a.suicides + d.suicides,
      a.teamkills + d.teamkills, a.playtime + d.playtime, a.roundsPlayed + d.roundsPlayed,
      a.wins + d.wins, a.losses + d.losses, a.score + d.score, a.headshots + d.headshots)
  }

  const NoPlayerTotals := PlayerTotals(0, 0, 0, 0, 0, 0, 0, 0, 0, 0)

  /** A `players` row; the table is keyed by `player_hash`. */
  datatype PlayerRow = PlayerRow(id: nat, name: string, totals: PlayerTotals)

  /** The five cumulative counters of a `weapons` row. */
  datatype WeaponTotals = WeaponTotals(kills: int, deaths: int, shots: int, hits: int, headshots: int)

  function AddWeaponTotals(a: WeaponTotals, d: WeaponTotals): WeaponTotals
  {
    WeaponTotals(a.kills + d.kills, a.deaths + d.deaths, a.shots + d.shots, a.hits + d.hits,
                 a.headshots + d.headshots)
  }

  const NoWeaponTotals := WeaponTotals(0, 0, 0, 0, 0)

  /** A `weapons` row is identified by (player_id, weapon_name). */
  datatype WeaponKey = WeaponKey(playerId: nat, weapon: string)

  /** The counters of a `weapons` row, all 0 for a row that does not exist. */
  function WeaponRow(weapons: map<WeaponKey, WeaponTotals>, key: WeaponKey): (r: WeaponTotals)
    ensures key !in weapons ==> r == NoWeaponTotals
    ensures key in weapons ==> r == weapons[key]
  {
    if key in weapons then weapons[key] else NoWeaponTotals
  }

  /** A `servers` row is identified by (server_ip, server_port). */
  datatype ServerKey = ServerKey(ip: string, port: int)

  /** The fields of a `servers` row that each report overwrites. */
  datatype ServerInfo = ServerInfo(
    name: string, mapName: Option<string>, gameType: Option<string>,
    maxPlayers: int, currentPlayers: int)

  datatype ServerRow = ServerRow(id: nat, info: ServerInfo, roundsPlayed: int)

  datatype Snapshot = Snapshot(
    players: map<string, PlayerRow>,
    servers: map<ServerKey, ServerRow>,
    weapons: map<WeaponKey, WeaponTotals>,
    nextPlayerId: nat,
    nextServerId: nat)

  /**
   * The id invariant of the store: every id is below the table's
   * auto-increment counter, and no two rows of a table share an id.
   */
  ghost predicate IdsValid(s: Snapshot)
  {
    && (forall h :: h in s.players ==> s.players[h].id < s.nextPlayerId)
    && (forall h, g :: h in s.players && g in s.players && h != g ==> s.players[h].id != s.players[g].id)
    && (forall k :: k in s.servers ==> s.servers[k].id < s.nextServerId)
    && (forall k, l :: k in s.servers && l in s.servers && k != l ==> s.servers[k].id != s.servers[l].id)
  }

  /** Why a statement raised: the store itself failed, or it refused a bound value. */
  datatype DbError = Outage | BadValue

  /**
   * The value `$data[$key] ?? 0` binds to an integer column, where `v` is the
   * entry (`None` when the key is absent): an absent or null entry binds 0.
   */
  function BoundCount(v: Option<Json>): (r: Option<int>)
    ensures v.None? || v == Some(JNull) ==> r == Some(0)
    ensures v.Some? && v.value.JInt? ==> r == Some(v.value.i)
    ensures r.Some? <==> v.None? || v == Some(JNull) || v.value.JInt?
  {
    AsInt(Coalesce(v, JInt(0)))
  }

  /** The database connection's view of the three tables, changed in place by the upserts. */
  class Database {
    var players: map<string, PlayerRow>
    var servers: map<ServerKey, ServerRow>
    var weapons: map<WeaponKey, WeaponTotals>
    var nextPlayerId: nat
    var nextServerId: nat

    function State(): Snapshot
      reads this
    {
      Snapshot(players, servers, weapons, nextPlayerId, nextServerId)
    }

    /** An empty store whose auto-increment counters start at 1. */
    constructor ()
      ensures State() == Snapshot(map[], map[], map[], 1, 1)
      ensures IdsValid(State())
    {
      players, servers, weapons := map[], map[], map[];
      nextPlayerId, nextServerId := 1, 1;
    }

    /** Transaction rollback: every table goes back to the snapshot taken at `beginTransaction`. */
    method Restore(s: Snapshot)
      modifies this
      ensures State() == s
    {
      players, servers, weapons := s.players, s.servers, s.weapons;
      nextPlayerId, nextServerId := s.nextPlayerId, s.nextServerId;
    }
  }
}
