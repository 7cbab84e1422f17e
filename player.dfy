/**
 * `Player::upsertPlayer` (add a report's counters to the row of its
 * `player_hash`, or insert that row) and `Player::calculateKDRatio`.
 */
module PlayerTable {
  import opened Wrappers
  import opened JsonValue
  import opened Store

  /** The values one call binds to its statement. */
  datatype PlayerValues = PlayerValues(hash: string, name: string, delta: PlayerTotals)

  /**
   * The array `upsertPlayer` receives. Name and hash are read without a
   * default; for the counters `None` stands for an absent key.
   */
  datatype PlayerArray = PlayerArray(
    name: Json, hash: Json,
    kills: Option<Json>, deaths: Option<Json>, suicides: Option<Json>, teamkills: Option<Json>,
    playtime: Option<Json>, rounds: Option<Json>, wins: Option<Json>, losses: Option<Json>,
    score: Option<Json>, headshots: Option<Json>)

  /**
   * The bound values: each counter is `$data[...] ?? 0`, so an absent or null
   * counter adds 0. `None` when the store would refuse one of them.
   */
  function BindPlayer(data: PlayerArray): (r: Option<PlayerValues>)
    ensures r.Some? ==> Some(r.value.hash) == AsText(data.hash) && Some(r.value.name) == AsBoundText(data.name)
    // the name reaches only the statement, so an array name is stored as "Array"
    ensures r.Some? && IsArray(data.name) ==> r.value.name == "Array"
    ensures r.Some? ==>
      var d := r.value.delta;
      && BoundCount(data.kills) == Some(d.kills) && BoundCount(data.deaths) == Some(d.deaths)
      && BoundCount(data.suicides) == Some(d.suicides) && BoundCount(data.teamkills) == Some(d.teamkills)
      && BoundCount(data.playtime) == Some(d.playtime) && BoundCount(data.rounds) == Some(d.roundsPlayed)
      && BoundCount(data.wins) == Some(d.wins) && BoundCount(data.losses) == Some(d.losses)
      && BoundCount(data.score) == Some(d.score) && BoundCount(data.headshots) == Some(d.headshots)
    ensures r.None? <==>
      || AsText(data.hash).None? || AsBoundText(data.name).None?
      || BoundCount(data.kills).None? || BoundCount(data.deaths).None?
      || BoundCount(data.suicides).None? || BoundCount(data.teamkills).None?
      || BoundCount(data.playtime).None? || BoundCount(data.rounds).None?
      || BoundCount(data.wins).None? || BoundCount(data.losses).None?
      || BoundCount(data.score).None? || BoundCount(data.headshots).None?
  {
    var hash := AsText(data.hash);
    var name := AsBoundText(data.name);
    var kills := BoundCount(data.kills);
    var deaths := BoundCount(data.deaths);
    var suicides := BoundCount(data.suicides);
    var teamkills := BoundCount(data.teamkills);
    var playtime := BoundCount(data.playtime);
    var rounds := BoundCount(data.rounds);
    var wins := BoundCount(data.wins);
    var losses := BoundCount(data.losses);
    var score := BoundCount(data.score);
    var headshots := BoundCount(data.headshots);
    if hash.None? || name.None? || kills.None? || deaths.None? || suicides.None? || teamkills.None?
       || playtime.None? || rounds.None? || wins.None? || losses.None? || score.None? || headshots.None?
    then None
    else Some(PlayerValues(hash.value, name.value, PlayerTotals(
      kills.value, deaths.value, suicides.value, teamkills.value, playtime.value,
      rounds.value, wins.value, losses.value, score.value, headshots.value)))
  }

  /**
   * The name reaches only the statement, so an array there binds exactly as
   * the string "Array" would; the hash goes through the `string $hash`
   * parameter of `getPlayerByHash`, which refuses an array.
   */
  lemma ArrayNameBindsAsText(data: PlayerArray)
    ensures IsArray(data.name) ==> BindPlayer(data) == BindPlayer(data.(name := JStr("Array")))
    ensures IsArray(data.hash) ==> BindPlayer(data).None?
  {
  }

  /**
   * The store after one `upsertPlayer` call and what it returns; `storeFails`
   * says the store raises during the call, which then changes nothing.
   */
  function PlayerUpsert(s: Snapshot, data: PlayerArray, storeFails: bool): (r: (Snapshot, Result<nat, DbError>))
    ensures r.1.Failure? <==> storeFails || BindPlayer(data).None?
    ensures r.1.Failure? ==> r.0 == s
    ensures r.0.servers == s.servers && r.0.weapons == s.weapons && r.0.nextServerId == s.nextServerId
    ensures r.1.Success? ==>
      var v := BindPlayer(data).value;
      && v.hash in r.0.players
      && r.0.players[v.hash].name == v.name
      && r.0.players[v.hash].id == r.1.value
      // a known hash: every counter grows by exactly its delta, and the id is kept
      && (v.hash in s.players ==>
            && r.0.players[v.hash].id == s.players[v.hash].id
            && r.0.players[v.hash].totals == AddPlayerTotals(s.players[v.hash].totals, v.delta)
            && r.0.nextPlayerId == s.nextPlayerId)
      // an unknown hash: a new row seeded with the deltas, under a fresh id
      && (v.hash !in s.players ==>
            && r.0.players[v.hash].totals == v.delta
            && r.1.value == s.nextPlayerId
            && r.0.nextPlayerId == s.nextPlayerId + 1)
      && r.0.players.Keys == s.players.Keys + {v.hash}
      && (forall h :: h in s.players && h != v.hash ==> r.0.players[h] == s.players[h])
    ensures IdsValid(s) ==> IdsValid(r.0)
  {
    if storeFails then (s, Failure(Outage))
    else match BindPlayer(data)
      case None => (s, Failure(BadValue))
      case Some(v) =>
        if v.hash in s.players then
          var row := s.players[v.hash];
          (s.(players := s.players[v.hash := PlayerRow(row.id, v.name, AddPlayerTotals(row.totals, v.delta))]),
           Success(row.id))
        else
          (s.(players := s.players[v.hash := PlayerRow(s.nextPlayerId, v.name, v.delta)],
              nextPlayerId := s.nextPlayerId + 1),
           Success(s.nextPlayerId))
  }

  /** `upsertPlayer`: look the hash up, then add to its row or insert a new one. */
  method UpsertPlayer(db: Database, data: PlayerArray, storeFails: bool) returns (r: Result<nat, DbError>)
    modifies db
    ensures (db.State(), r) == PlayerUpsert(old(db.State()), data, storeFails)
  {
    if storeFails {
      return Failure(Outage);
    }
    var bound := BindPlayer(data);
    if bound.None? {
      return Failure(BadValue);
    }
    var v := bound.value;
    if v.hash in db.players {
      var row := db.players[v.hash];
      db.players := db.players[v.hash := PlayerRow(row.id, v.name, AddPlayerTotals(row.totals, v.delta))];
      r := Success(row.id);
    } else {
      var id := db.nextPlayerId;
      db.players := db.players[v.hash := PlayerRow(id, v.name, v.delta)];
      db.nextPlayerId := id + 1;
      r := Success(id);
    }
  }

  /**
   * `calculateKDRatio` before rounding to two places: the kills themselves when
   * there are no deaths, otherwise the quotient.
   */
  function KDRatio(kills: int, deaths: int): (r: real)
    ensures deaths <= 0 ==> r == kills as real
    ensures deaths > 0 ==> r * deaths as real == kills as real
  {
    if deaths > 0 then kills as real / deaths as real else kills as real
  }

  /** The counters a sequence of successful reports leaves on one player: the sum of their deltas. */
  function SumDeltas(deltas: seq<PlayerTotals>): PlayerTotals
  {
    if deltas == [] then NoPlayerTotals
    else AddPlayerTotals(SumDeltas(deltas[..|deltas| - 1]), deltas[|deltas| - 1])
  }

  /** The store after `upsertPlayer` has been called once per entry of `datas`, in order. */
  function PlayerUpserts(s: Snapshot, datas: seq<PlayerArray>): Snapshot
  {
    if datas == [] then s
    else PlayerUpsert(PlayerUpserts(s, datas[..|datas| - 1]), datas[|datas| - 1], false).0
  }

  /** One upsert adds at most one row to `players`. */
  lemma PlayerUpsertGrowsByAtMostOne(s: Snapshot, data: PlayerArray, storeFails: bool)
    ensures |PlayerUpsert(s, data, storeFails).0.players| <= |s.players| + 1
  {
    var r := PlayerUpsert(s, data, storeFails);
    if r.1.Success? {
      var h := BindPlayer(data).value.hash;
      assert r.0.players.Keys == s.players.Keys + {h};
      assert |r.0.players.Keys| <= |s.players.Keys| + |{h}|;
    }
  }

  /**
   * Reports for one hash accumulate: after any number of them, each counter of
   * that player is its initial value plus the sum of the reports' deltas.
   */
  lemma {:induction false} UpsertsAccumulate(s: Snapshot, datas: seq<PlayerArray>, hash: string, deltas: seq<PlayerTotals>)
    requires hash in s.players && |deltas| == |datas|
    requires forall k :: 0 <= k < |datas| ==>
               BindPlayer(datas[k]).Some? && BindPlayer(datas[k]).value.hash == hash
               && BindPlayer(datas[k]).value.delta == deltas[k]
    ensures hash in PlayerUpserts(s, datas).players
    ensures PlayerUpserts(s, datas).players[hash].totals == AddPlayerTotals(s.players[hash].totals, SumDeltas(deltas))
    ensures PlayerUpserts(s, datas).players[hash].id == s.players[hash].id
  {
    if datas != [] {
      var n := |datas| - 1;
      assert forall k :: 0 <= k < n ==> datas[..n][k] == datas[k] && deltas[..n][k] == deltas[k];
      UpsertsAccumulate(s, datas[..n], hash, deltas[..n]);
      var mid := PlayerUpserts(s, datas[..n]);
      UpsertAddsToKnownHash(mid, datas[n], hash, deltas[n]);
      AddPlayerTotalsAssociates(s.players[hash].totals, SumDeltas(deltas[..n]), deltas[n]);
    }
  }

  lemma UpsertAddsToKnownHash(s: Snapshot, data: PlayerArray, hash: string, delta: PlayerTotals)
    requires hash in s.players
    requires BindPlayer(data).Some? && BindPlayer(data).value.hash == hash && BindPlayer(data).value.delta == delta
    ensures hash in PlayerUpsert(s, data, false).0.players
    ensures PlayerUpsert(s, data, false).0.players[hash].totals == AddPlayerTotals(s.players[hash].totals, delta)
    ensures PlayerUpsert(s, data, false).0.players[hash].id == s.players[hash].id
  {
  }

  lemma AddPlayerTotalsAssociates(a: PlayerTotals, b: PlayerTotals, c: PlayerTotals)
    ensures AddPlayerTotals(AddPlayerTotals(a, b), c) == AddPlayerTotals(a, AddPlayerTotals(b, c))
  {
  }
}
