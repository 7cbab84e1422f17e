/**
 * The pure helpers of `includes/functions.php`: the rating formula, the K/D
 * figure shown on pages, pagination, the 'string' and fallback branches of
 * `validate`, and the game-type names.
 */
module CommonFunctions {
  import opened Wrappers
  import PhpText
  import JsonValue
  import PlayerTable

  /**
   * The `RATING_*` constants; their values are defined outside the modelled
   * files, so they are parameters here.
   */
  datatype RatingWeights = RatingWeights(killPoints: int, deathPoints: int, headshotBonus: int, teamkillPenalty: int)

  /** `$stats[$key] ?? 0` on a row of integer columns. */
  function Stat(stats: map<string, int>, key: string): (r: int)
    ensures key !in stats ==> r == 0
    ensures key in stats ==> r == stats[key]
  {
    if key in stats then stats[key] else 0
  }

  /** The weighted sum before clamping. Note the team-kill key is 'team_kills'. */
  function RawRating(stats: map<string, int>, w: RatingWeights): int
  {
    Stat(stats, "kills") * w.killPoints + Stat(stats, "deaths") * w.deathPoints
    + Stat(stats, "headshots") * w.headshotBonus + Stat(stats, "team_kills") * w.teamkillPenalty
  }

  /** `calculateRating`: the weighted sum, clamped at 0 from below. */
  function CalculateRating(stats: map<string, int>, w: RatingWeights): (r: int)
    ensures r >= 0
    ensures r >= RawRating(stats, w)
    ensures r == 0 || r == RawRating(stats, w)
  {
    if RawRating(stats, w) > 0 then RawRating(stats, w) else 0
  }

  /**
   * The `players` table names its column `teamkills`, while the rating reads
   * `team_kills`: on a row of that table the team-kill count never lowers the rating.
   */
  lemma RatingIgnoresTeamkillsColumn(stats: map<string, int>, w: RatingWeights, teamkills: int)
    ensures CalculateRating(stats["teamkills" := teamkills], w) == CalculateRating(stats, w)
  {
    var t := stats["teamkills" := teamkills];
    assert "teamkills" != "kills" && "teamkills" != "deaths" && "teamkills" != "headshots" && "teamkills" != "team_kills";
    assert Stat(t, "kills") == Stat(stats, "kills");
    assert Stat(t, "deaths") == Stat(stats, "deaths");
    assert Stat(t, "headshots") == Stat(stats, "headshots");
    assert Stat(t, "team_kills") == Stat(stats, "team_kills");
  }

  /** With a non-negative kill weight, one more kill never lowers the rating. */
  lemma RatingMonotoneInKills(stats: map<string, int>, w: RatingWeights)
    requires w.killPoints >= 0
    ensures CalculateRating(stats["kills" := Stat(stats, "kills") + 1], w) >= CalculateRating(stats, w)
  {
    var t := stats["kills" := Stat(stats, "kills") + 1];
    assert "kills" != "deaths" && "kills" != "headshots" && "kills" != "team_kills";
    assert Stat(t, "deaths") == Stat(stats, "deaths");
    assert Stat(t, "headshots") == Stat(stats, "headshots");
    assert Stat(t, "team_kills") == Stat(stats, "team_kills");
    assert RawRating(t, w) == RawRating(stats, w) + w.killPoints;
  }

  /**
   * `formatKD` before `number_format`: with no deaths, the kills when positive
   * and 0 otherwise; else the quotient.
   */
  function FormatKD(kills: int, deaths: int): (r: real)
    ensures deaths == 0 && kills > 0 ==> r == kills as real
    ensures deaths == 0 && kills <= 0 ==> r == 0.0
    ensures deaths != 0 ==> r * deaths as real == kills as real
  {
    if deaths == 0 then (if kills > 0 then kills as real else 0.0)
    else kills as real / deaths as real
  }

  /**
   * The page figure and `Player::calculateKDRatio` agree on the usual inputs
   * (positive deaths, or no deaths and no negative kills) and part ways
   * exactly on negative kills without deaths and on negative deaths.
   */
  lemma KDFiguresAgree(kills: int, deaths: int)
    ensures (deaths > 0 || (deaths == 0 && kills >= 0)) ==> FormatKD(kills, deaths) == PlayerTable.KDRatio(kills, deaths)
    ensures deaths == 0 && kills < 0 ==> FormatKD(kills, deaths) != PlayerTable.KDRatio(kills, deaths)
    ensures deaths < 0 && kills != 0 ==> FormatKD(kills, deaths) != PlayerTable.KDRatio(kills, deaths)
  {
  }

  /** The array `paginate` returns. */
  datatype Page = Page(
    total: int, perPage: int, currentPage: int, totalPages: int, offset: int,
    hasPrev: bool, hasNext: bool)

  /** `ceil($a / $b)` for a positive divisor. */
  function CeilDiv(a: int, b: int): (r: int)
    requires b > 0
    ensures (r - 1) * b < a <= r * b
  {
    -((-a) / b)
  }

  /**
   * `paginate`: as many pages as needed to hold `total` items, the requested
   * page clamped into [1, totalPages] (1 when there are no pages), and the
   * offset of its first item.
   */
  function Paginate(total: int, perPage: int, requested: int): (r: Page)
    requires perPage > 0
    ensures r.total == total && r.perPage == perPage
    ensures (r.totalPages - 1) * perPage < total <= r.totalPages * perPage
    ensures r.currentPage >= 1 && r.offset >= 0
    ensures r.currentPage == 1 || r.currentPage <= r.totalPages
    ensures 1 <= requested <= r.totalPages ==> r.currentPage == requested
    ensures requested < 1 ==> r.currentPage == 1
    ensures requested > r.totalPages ==> r.currentPage == (if r.totalPages >= 1 then r.totalPages else 1)
    ensures r.offset == (r.currentPage - 1) * perPage
    ensures r.hasPrev <==> r.currentPage > 1
    ensures r.hasNext <==> r.currentPage < r.totalPages
  {
    var totalPages := CeilDiv(total, perPage);
    var clamped := if requested < totalPages then requested else totalPages;
    var current := if clamped > 1 then clamped else 1;
    Page(total, perPage, current, totalPages, (current - 1) * perPage, current > 1, current < totalPages)
  }

  /** With items to show, the page's first item is one of them. */
  lemma PageStartsInsideTotal(total: int, perPage: int, requested: int)
    requires perPage > 0 && total > 0
    ensures Paginate(total, perPage, requested).offset < total
  {
    var r := Paginate(total, perPage, requested);
    assert r.totalPages >= 1;
    assert r.currentPage <= r.totalPages;
    assert (r.currentPage - 1) * perPage <= (r.totalPages - 1) * perPage;
  }

  /** With nothing to show there is a single, first page and no next one. */
  lemma EmptyListingIsFirstPage(perPage: int, requested: int)
    requires perPage > 0
    ensures var r := Paginate(0, perPage, requested);
      r.currentPage == 1 && r.offset == 0 && !r.hasPrev && !r.hasNext && r.totalPages == 0
  {
  }

  const PhpIntMax := 0x7FFF_FFFF_FFFF_FFFF

  /** The `min`/`max` options of `validate`; `None` is absent or null. */
  datatype LengthOptions = LengthOptions(min: Option<int>, max: Option<int>)

  /** `validate($s, 'string', $options)`: the byte length lies within [min, max], by default [0, PHP_INT_MAX]. */
  function ValidateString(s: string, options: LengthOptions): (r: bool)
    ensures options.min.Some? && |s| < options.min.value ==> !r
    ensures options.max.Some? && |s| > options.max.value ==> !r
    ensures options == LengthOptions(None, None) ==> (r <==> |s| <= PhpIntMax)
    ensures options.min.Some? && options.max.Some? ==> (r <==> options.min.value <= |s| <= options.max.value)
    ensures options.min.Some? && options.max.None? ==> (r <==> options.min.value <= |s| <= PhpIntMax)
    ensures options.min.None? && options.max.Some? ==> (r <==> |s| <= options.max.value)
  {
    var min := if options.min.Some? then options.min.value else 0;
    var max := if options.max.Some? then options.max.value else PhpIntMax;
    min <= |s| <= max
  }

  /**
   * The fallback branch of `validate`, for a type it does not know: the input
   * is not PHP-empty, the same `empty()` the tracking endpoint applies to a
   * decoded string; every input of two characters or more passes.
   */
  function ValidateOther(input: string): (r: bool)
    ensures r <==> !JsonValue.Empty(Some(JsonValue.JStr(input)))
    ensures |input| >= 2 ==> r
    ensures r ==> |input| >= 1
  {
    !PhpText.IsEmptyString(input)
  }

  /** The `GAME_TYPE_*` display names, defined outside the modelled files. */
  datatype GameTypeNames = GameTypeNames(dm: string, tdm: string, ctf: string, koth: string, sc: string)

  /** `getGameTypeName`: the display name of a game-type code, ignoring ASCII case; 'Unknown' otherwise. */
  function GetGameTypeName(code: string, names: GameTypeNames): (r: string)
    ensures PhpText.Lower(code) == "dm" ==> r == names.dm
    ensures PhpText.Lower(code) == "tdm" ==> r == names.tdm
    ensures PhpText.Lower(code) == "ctf" ==> r == names.ctf
    ensures PhpText.Lower(code) == "koth" ==> r == names.koth
    ensures PhpText.Lower(code) == "sc" ==> r == names.sc
    ensures PhpText.Lower(code) !in {"dm", "tdm", "ctf", "koth", "sc"} ==> r == "Unknown"
  {
    var key := PhpText.Lower(code);
    if key == "dm" then names.dm
    else if key == "tdm" then names.tdm
    else if key == "ctf" then names.ctf
    else if key == "koth" then names.koth
    else if key == "sc" then names.sc
    else "Unknown"
  }

  /** Codes that differ only in ASCII case name the same game type. */
  lemma GameTypeNameIgnoresCase(a: string, b: string, names: GameTypeNames)
    requires PhpText.Lower(a) == PhpText.Lower(b)
    ensures GetGameTypeName(a, names) == GetGameTypeName(b, names)
  {
  }

  /** In particular a code and its lower-case form name the same game type. */
  lemma {:induction false} GameTypeNameOfLowered(code: string, names: GameTypeNames)
    ensures GetGameTypeName(PhpText.Lower(code), names) == GetGameTypeName(code, names)
  {
    PhpText.LowerIdempotent(code);
    GameTypeNameIgnoresCase(PhpText.Lower(code), code, names);
  }
}
