/**
 * `Weapon::updateWeaponStats` (add a report's counters to the row of
 * (player_id, weapon_name), or insert that row) and `Weapon::calculateAccuracy`.
 */
module WeaponTable {
  import opened Wrappers
  import opened JsonValue
  import opened Store

  /** The stats array `updateWeaponStats` receives; `None` stands for an absent key. */
  datatype WeaponArray = WeaponArray(
    kills: Option<Json>, deaths: Option<Json>, shots: Option<Json>, hits: Option<Json>, headshots: Option<Json>)

  /** The five counters bound to the statement: each is `$stats[...] ?? 0`; `None` when the store refuses one. */
  function BindWeapon(stats: WeaponArray): (r: Option<WeaponTotals>)
    ensures r.Some? ==>
      && BoundCount(stats.kills) == Some(r.value.kills) && BoundCount(stats.deaths) == Some(r.value.deaths)
      && BoundCount(stats.shots) == Some(r.value.shots) && BoundCount(stats.hits) == Some(r.value.hits)
      && BoundCount(stats.headshots) == Some(r.value.headshots)
    ensures r.None? <==>
      || BoundCount(stats.kills).None? || BoundCount(stats.deaths).None?
      || BoundCount(stats.shots).None? || BoundCount(stats.hits).None?
      || BoundCount(stats.headshots).None?
  {
    var kills := BoundCount(stats.kills);
    var deaths := BoundCount(stats.deaths);
    var shots := BoundCount(stats.shots);
    var hits := BoundCount(stats.hits);
    var headshots := BoundCount(stats.headshots);
    if kills.None? || deaths.None? || shots.None? || hits.None? || headshots.None? then None
    else Some(WeaponTotals(kills.value, deaths.value, shots.value, hits.value, headshots.value))
  }

  /**
   * The store after one `updateWeaponStats` call and whether it raised;
   * `storeFails` says the store raises during the call, which then changes nothing.
   */
  function WeaponUpdate(s: Snapshot, playerId: nat, weapon: string, stats: WeaponArray, storeFails: bool): (r: (Snapshot, Outcome<DbError>))
    ensures r.1.Fail? <==> storeFails || BindWeapon(stats).None?
    ensures r.1.Fail? ==> r.0 == s
    ensures r.0.players == s.players && r.0.servers == s.servers
    ensures r.0.nextPlayerId == s.nextPlayerId && r.0.nextServerId == s.nextServerId
    ensures r.1.Pass? ==>
      var key := WeaponKey(playerId, weapon);
      var d := BindWeapon(stats).value;
      && key in r.0.weapons
      // a known key: each counter grows by exactly its delta
      && (key in s.weapons ==> r.0.weapons[key] == AddWeaponTotals(s.weapons[key], d))
      // an unknown key: a new row holding the deltas
      && (key !in s.weapons ==> r.0.weapons[key] == d)
      && r.0.weapons.Keys == s.weapons.Keys + {key}
      && (forall k :: k in s.weapons && k != key ==> r.0.weapons[k] == s.weapons[k])
    ensures IdsValid(s) ==> IdsValid(r.0)
  {
    var key := WeaponKey(playerId, weapon);
    if storeFails then (s, Fail(Outage))
    else match BindWeapon(stats)
      case None => (s, Fail(BadValue))
      case Some(d) =>
        if key in s.weapons then (s.(weapons := s.weapons[key := AddWeaponTotals(s.weapons[key], d)]), Pass)
        else (s.(weapons := s.weapons[key := d]), Pass)
  }

  /** `updateWeaponStats`: look the key up, then add to its row or insert a new one. */
  method UpdateWeaponStats(db: Database, playerId: nat, weapon: string, stats: WeaponArray, storeFails: bool)
    returns (r: Outcome<DbError>)
    modifies db
    ensures (db.State(), r) == WeaponUpdate(old(db.State()), playerId, weapon, stats, storeFails)
  {
    if storeFails {
      return Fail(Outage);
    }
    var bound := BindWeapon(stats);
    if bound.None? {
      return Fail(BadValue);
    }
    var key := WeaponKey(playerId, weapon);
    if key in db.weapons {
      db.weapons := db.weapons[key := AddWeaponTotals(db.weapons[key], bound.value)];
    } else {
      db.weapons := db.weapons[key := bound.value];
    }
    r := Pass;
  }

  lemma AddNoWeaponTotals(a: WeaponTotals)
    ensures AddWeaponTotals(a, NoWeaponTotals) == a
  {
  }

  lemma AddWeaponTotalsAssociates(a: WeaponTotals, b: WeaponTotals, c: WeaponTotals)
    ensures AddWeaponTotals(AddWeaponTotals(a, b), c) == AddWeaponTotals(a, AddWeaponTotals(b, c))
  {
  }

  /**
   * `calculateAccuracy` before rounding to two places: 0 when no shot was
   * fired, otherwise hits per shot as a percentage.
   */
  function Accuracy(hits: int, shots: int): (r: real)
    ensures shots <= 0 ==> r == 0.0
    ensures shots > 0 ==> r * shots as real == hits as real * 100.0
    ensures shots > 0 && 0 <= hits <= shots ==> 0.0 <= r <= 100.0
  {
    if shots > 0 then hits as real / shots as real * 100.0 else 0.0
  }
}
