# Neos Chronos V3 — the stats ingestion path, in Dafny

This project models the core of Neos Chronos V3, a statistics tracker for game
servers, and proves properties of that model. The model covers:

- **The tracker endpoint** `public/api/track.php` and the three table classes it
  drives (`Server`, `Player`, `Weapon`).
  - A report is gated: POST only, valid JSON, a non-empty player name and hash.
  - Inside one transaction it upserts the server row keyed by (ip, port), the
    player row keyed by hash, and one weapon row per named weapon entry keyed
    by (player id, weapon name).
  - Any raise rolls the store back.
  - The store is the class `Store.Database`, holding three maps and two
    auto-increment counters. Each upsert is a method proved equal to a spec
    function (`ServerTable.ServerUpsert`, `PlayerTable.PlayerUpsert`,
    `WeaponTable.WeaponUpdate`), and the properties are stated on those
    functions.
- **The legacy upload endpoint** `stats_import.php`:
  - the empty-field gate;
  - space-to-'+' restoration and strict base64 decoding (PHP's
    `base64_decode($s, true)`, modelled in `Base64`);
  - the printable debug snippet;
  - the registered-server check.
- **The pure helpers** of `includes/functions.php` (rating, K/D figure,
  pagination, `validate`, game-type names) and of `public/bootstrap.php`
  (`formatTime`, the autoloader's class-to-file mapping, the configuration file
  fallback).
- **The administrator accounts** of `admin_auth.php`:
  - the per-user lockout state machine (five failures lock for 1800 seconds);
  - the fallback to the configured credentials;
  - account creation, activation and deactivation on the class
    `AdminAuth.AdminUsers`;
  - the migration runner that strips comments, splits statements and counts
    successes.
- **The `.env` loader** of `chronos_config.php`: the line parser, last assignment
  wins, `env` defaults, the placeholder check, and the class
  `ChronosConfig.Environment` whose `putenv` map the loader changes line by line.
- **The input helpers** of `security.php`: `sanitizeInput` for text, the
  character-class validators, the `getParam` family, `verifyPassword`, and the
  bind type string of `executePrepared`.

Failures of the store (a lost connection, a lock timeout) are inputs: `failAt`
names the upsert call, counted from 0, that raises. A raise can also come from
a value the store refuses (`DbError.BadValue`): null in a text column, or
anything but an integer in an integer column. An array sent for a text column
does not raise: PDO binds it as the text "Array". Password hashing and
verification, `DBEscape`, the clock and query execution are parameters: the
functions `hash`, `verify`, `escape`, the integer `now`, and `exec`.

## Model

| member | source | states |
|---|---|---|
| `TrackApi.StatusCode` | public/api/track.php:32-133 | 200 exactly for a committed report; 400 exactly for invalid JSON or missing player data; 405 exactly for a method other than POST; 500 exactly for a raise inside the transaction |
| `TrackApi.ServerData` | public/api/track.php:66-75 | the server array always carries one round, and absent fields take 'Unknown Server', '0.0.0.0', port 0, NULL map and game type, 0 players |
| `TrackApi.PlayerData` | public/api/track.php:80-93 | name and hash are passed through; an absent `rounds` counts 1, and an absent kills, deaths or score counts 0 |
| `TrackApi.PlayerDataDefaults` | public/api/track.php:83-92 | every counter of the player block that is absent or null is sent as 0 (kills, deaths, suicides, teamkills, playtime, wins, losses, score, headshots), and `rounds` as 1 |
| `TrackApi.WeaponStats` | public/api/track.php:101-107 | every weapon counter is present, and an absent kills or shots count is 0 |
| `TrackApi.WeaponStatsDefaults` | public/api/track.php:102-106 | each of the five weapon counters that is absent or null is sent as 0 |
| `TrackApi.WeaponEntries` | public/api/track.php:98-99 | an empty or non-array `weapons` yields no entries to visit |
| `TrackApi.ServerPhase` | public/api/track.php:64-77 | without a server block nothing changes and the server id is null; otherwise the row of (ip, port) holds the reported state with one more round, its id is returned, every other server row is kept, and the id invariant is kept |
| `TrackApi.WeaponPhase` | public/api/track.php:98-111 | the weapon loop leaves players, servers and both id counters alone and keeps the id invariant |
| `TrackApi.WeaponPhaseAccumulates` | public/api/track.php:98-111 | when the loop completes, each of the player's weapon rows holds its old counters (0 for a new row) plus the counters of every entry naming that weapon, repeated names included; a weapon no entry names keeps its row |
| `TrackApi.WeaponRowAccumulates` | public/api/track.php:99-109 | the same for one weapon, by induction over the entries: skipped entries add nothing, a named entry adds its counters to its own weapon only |
| `TrackApi.WeaponPhaseAddsNamedRows` | public/api/track.php:99-109 | when the loop completes, the player has a row for a weapon exactly when it had one before or some entry names that weapon |
| `TrackApi.WeaponPhaseTouchesOnlyPlayer` | public/api/track.php:99-109 | the weapon loop never removes a row and changes or adds only rows of the reporting player |
| `TrackApi.UnnamedWeaponsSkipped` | public/api/track.php:100 | entries whose names are all PHP-empty write nothing and cannot raise |
| `TrackApi.PlayerPhase` | public/api/track.php:64-95 | the server id is null exactly when no server block was sent, and the weapon rows are unchanged |
| `TrackApi.PlayerPhasePlayer` | public/api/track.php:79-95 | after the server step, the player row holds the new name and counters grown by exactly the deltas (a new hash: the deltas); a known hash keeps its id; other players are untouched |
| `TrackApi.PlayerPhaseServers` | public/api/track.php:63-77 | with a server block, the (ip, port) row holds the reported state with one more round and the returned id, and every other server row is kept; without one, no server row changes |
| `TrackApi.PlayerPhaseKeepsIds` | public/api/track.php:63-95 | the server and player steps keep ids unique and below the counters |
| `TrackApi.FirstCallAlwaysMade` | public/api/track.php:64-95 | the store calls are numbered in the order the endpoint makes them: the first is the server upsert when a server block was sent and the player upsert otherwise, and a raise on the first call or on the player call fails the transaction |
| `TrackApi.Transaction` | public/api/track.php:61-114 | at commit, the server id is null exactly when no server block was sent |
| `TrackApi.TransactionPlayer` | public/api/track.php:79-95 | at commit, the player row holds the new name and counters grown by exactly the deltas; a known hash keeps its id; other players are unchanged |
| `TrackApi.TransactionServers` | public/api/track.php:63-77 | at commit, a server block leaves its (ip, port) row with the reported state, one more round and the returned id, and every other server row as it was; without a server block the servers are unchanged |
| `TrackApi.TransactionWeapons` | public/api/track.php:97-111 | at commit, each of the player's weapon rows holds its old counters plus those of every entry naming it, and the player has a row exactly for the weapons it had or the report names |
| `TrackApi.TransactionWeaponsFrame` | public/api/track.php:97-111 | at commit, the weapon rows of every other player are kept, every new row is the player's, and a report without weapon entries changes no weapon row |
| `TrackApi.TransactionKeepsIds` | public/api/track.php:61-114 | a committed report keeps ids unique and below the counters |
| `TrackApi.Ingest` | public/api/track.php:31-134 | non-POST is 405 and invalid JSON is 400, both with the store untouched; missing player data is 400 exactly when the gate fails; a raise inside the transaction is answered with 500 exactly when the gate passes and the transaction fails; any rejected or failed request leaves every table as it was; 200 exactly when the transaction commits |
| `TrackApi.UpdateWeapons` | public/api/track.php:98-111 | the weapon `foreach` changes the store and returns exactly as the weapon loop's spec function says, whose row contents `WeaponPhaseAccumulates` states |
| `TrackApi.UpdateEntry` | public/api/track.php:99-109 | one iteration of the weapon `foreach`: a raise ends the loop as the spec function says, and otherwise the rest of the loop from the new state gives the same outcome |
| `TrackApi.RunWeapons` | public/api/track.php:98-111 | the weapon loop runs over the entries of a non-empty `weapons` array and changes the store exactly as the spec function says |
| `TrackApi.RunTransaction` | public/api/track.php:61-127 | the transaction fails exactly when `Transaction` does and then leaves the store as it was; on commit the store and the ids are `Transaction`'s |
| `TrackApi.UpsertServerAndPlayer` | public/api/track.php:64-95 | the server-then-player steps change the store exactly as `PlayerPhase` says |
| `TrackApi.Track` | public/api/track.php:31-134 | the endpoint changes the store and responds exactly as `Ingest` says, restoring the snapshot on any raise |
| `TrackApi.PlayerReportAccumulates` | public/api/track.php:80-95 | a player-only report with any non-empty name adds its kills, deaths and one round to the hash's row, renames it to the text the name binds as ("Array" for an array), returns its id (or the next id for a new hash), and leaves servers and weapons unchanged |
| `TrackApi.ReplayAccumulates` | src/Player.php:70-102 | a series of player-only reports (a name, the hash, kills and deaths) for a known hash leaves its counters at the old values plus the sum of the deltas, under the same id and the last name sent |
| `TrackApi.SeriesFromEmptyStore` | src/Player.php:103-128 | from an empty store the first report inserts id 1 and later ones add to it |
| `TrackApi.TwoReportsAddUp` | public/api/track.php:80-95 | two reports of 5 kills and 1 death for a new hash leave 10 kills, 2 deaths and 2 rounds under id 1 |
| `TrackApi.ThirdReportRenames` | src/Player.php:72-73 | a third report under another name renames the row while the counters keep growing |
| `PlayerTable.BindPlayer` | src/Player.php:87-125 | each bound counter is `$data[...] ?? 0`; the hash is the text `getPlayerByHash` receives and the name the text the statement binds, "Array" for an array; the statement is refused exactly when one value cannot bind |
| `PlayerTable.ArrayNameBindsAsText` | src/Player.php:68-88 | an array name binds exactly as the string "Array" would; an array hash is refused by the `string $hash` parameter |
| `PlayerTable.PlayerUpsert` | src/Player.php:66-130 | known hash: every counter becomes old + delta, the name is replaced, and the id is kept; unknown hash: a row seeded with the deltas under a fresh id; other rows are unchanged; a raise changes nothing; ids stay unique |
| `PlayerTable.UpsertPlayer` | src/Player.php:66-130 | the method changes the table and returns exactly as `PlayerUpsert` says |
| `PlayerTable.PlayerUpsertGrowsByAtMostOne` | src/Player.php:103-111 | one upsert adds at most one row |
| `PlayerTable.UpsertsAccumulate` | src/Player.php:72-100 | after any number of upserts for one hash, each counter is its initial value plus the sum of the deltas, under the same id |
| `PlayerTable.KDRatio` | src/Player.php:144-147 | with no positive deaths the kills themselves; otherwise the quotient |
| `ServerTable.BindServer` | src/Server.php:57-86 | ip, port and name bind as the statement sends them, "Array" for an array; map and game type default to NULL and otherwise bind as text, so they never refuse; player counts and rounds default to 0; refused exactly when a value cannot bind |
| `ServerTable.ArraysBindAsText` | src/Server.php:42-83 | an array name, ip, map or game type binds exactly as the string "Array" would |
| `ServerTable.ServerUpsert` | src/Server.php:39-91 | known (ip, port): state fields overwritten, rounds added, id kept; unknown: a row seeded with the values under a fresh id; other rows are unchanged; a raise changes nothing |
| `ServerTable.UpsertServer` | src/Server.php:39-91 | the method changes the table and returns exactly as `ServerUpsert` says |
| `WeaponTable.BindWeapon` | src/Weapon.php:64-72 | each weapon counter binds `$stats[...] ?? 0`; refused exactly when one cannot bind |
| `WeaponTable.WeaponUpdate` | src/Weapon.php:44-73 | known key: each of the five counters grows by its delta; unknown key: a row of the deltas; every other (player, weapon) row is unchanged; a raise changes nothing |
| `WeaponTable.UpdateWeaponStats` | src/Weapon.php:44-73 | the method changes the table exactly as `WeaponUpdate` says |
| `WeaponTable.Accuracy` | src/Weapon.php:78-81 | 0 without shots; otherwise hits per shot as a percentage, within [0, 100] when hits ≤ shots |
| `Store.BoundCount` | src/Player.php:89-98 | an absent or null counter binds 0, an integer binds itself, and anything else is refused |
| `Store.Database.Restore` | public/api/track.php:126 | rollback puts every table and counter back to the snapshot |
| `JsonValue.LookupFindsLast` | public/api/track.php:40 | a key is found exactly when it occurs, and the value found is that of its last occurrence |
| `JsonValue.Coalesce` | public/api/track.php:67-92 | `??` replaces an unset or null value only |
| `JsonValue.Elements` | public/api/track.php:99 | `foreach` visits the list items, one value per distinct key of an object, and nothing for an empty value |
| `JsonValue.ElementsOfObject` | public/api/track.php:40-99 | iterating a decoded object visits, for each distinct key in first-occurrence order, the value reading that key gives: the last one sent |
| `JsonValue.ElementsWithoutRepeats` | public/api/track.php:99 | an object without repeated keys is iterated as its members' values in document order |
| `JsonValue.KeysCover` | public/api/track.php:40 | the keys iterated are exactly the keys the object's members use |
| `JsonValue.AsText` | src/Weapon.php:44 | a string passes as itself and a boolean as "1" or ""; null and arrays are refused |
| `JsonValue.AsBoundText` | src/Database.php:94-98 | a statement parameter in a text column: null is refused, an array binds as "Array", and every value a `string` parameter accepts binds as that text |
| `CommonFunctions.CalculateRating` | includes/functions.php:130-142 | never negative, at least the weighted sum, and either 0 or that sum |
| `CommonFunctions.RatingIgnoresTeamkillsColumn` | includes/functions.php:134 | the `players` column `teamkills` never changes the rating, because the formula reads `team_kills` |
| `CommonFunctions.RatingMonotoneInKills` | includes/functions.php:136-141 | with a non-negative kill weight, one more kill never lowers the rating |
| `CommonFunctions.FormatKD` | includes/functions.php:110-115 | no deaths: the kills when positive, else 0; otherwise the quotient |
| `CommonFunctions.KDFiguresAgree` | includes/functions.php:110-115 | `formatKD` and `calculateKDRatio` agree on positive deaths and on no deaths with non-negative kills, and differ on negative kills with no deaths and on negative deaths |
| `CommonFunctions.Paginate` | includes/functions.php:213-227 | total pages is the ceiling of total / perPage; the current page is the request clamped into [1, total pages] and never below 1; the offset is (page − 1)·perPage ≥ 0; has_prev and has_next are exact |
| `CommonFunctions.PageStartsInsideTotal` | includes/functions.php:214-216 | with items to show, the offset points at one of them |
| `CommonFunctions.EmptyListingIsFirstPage` | includes/functions.php:214-216 | with nothing to show: page 1, offset 0, zero pages, no previous and no next page |
| `CommonFunctions.ValidateString` | includes/functions.php:53-57 | holds exactly when min ≤ length ≤ max, with min defaulting to 0 and max to PHP_INT_MAX, for every combination of given and absent bounds |
| `CommonFunctions.ValidateOther` | includes/functions.php:58-59 | the fallback agrees with PHP `empty` of the string as a JSON value; every input of two or more characters passes and the empty input fails |
| `CommonFunctions.GetGameTypeName` | includes/functions.php:248-258 | each of the five codes gives its name after ASCII lower-casing; anything else gives 'Unknown' |
| `CommonFunctions.GameTypeNameIgnoresCase` | includes/functions.php:257 | codes equal up to ASCII case name the same game type |
| `CommonFunctions.GameTypeNameOfLowered` | includes/functions.php:257 | a code and its lower-case form name the same game type |
| `Bootstrap.TimeParts` | public/bootstrap.php:70-71 | for s ≥ 0: whole hours and minutes with 0 ≤ minutes < 60, accounting for s to within a minute |
| `Bootstrap.FormatTime` | public/bootstrap.php:68-77 | "Hh Mm" when there is at least an hour, "Mm" otherwise |
| `Bootstrap.FormatTimeRoundTrip` | public/bootstrap.php:68-77 | reading the text back gives the whole minutes of s, so only the leftover seconds are lost |
| `Bootstrap.ClassFile` | public/bootstrap.php:33-43 | no file outside the `Chronos\` namespace; otherwise `src/` + the rest with every `\` turned into `/` + ".php" |
| `Bootstrap.Autoload` | public/bootstrap.php:45-47 | a class file is required exactly when its mapped file exists |
| `Bootstrap.ClassFileInjective` | public/bootstrap.php:42-43 | two class names mapped to the same file are the same class |
| `Bootstrap.ConfigFile` | public/bootstrap.php:18-25 | config.php when it exists, else config.sample.php when that exists, else none |
| `Base64.Decode` | stats_import.php:51 | a successful decode yields bytes |
| `Base64.DecodeOfValues` | stats_import.php:51 | alphabet text followed by n '=' fails when its length leaves one lone character in the last group, or when the padding is longer than two or does not complete the group; otherwise it decodes to the bytes of its values |
| `Base64.DecodeIgnoresSkipped` | stats_import.php:51 | tabs, newlines, carriage returns and spaces anywhere in the input do not change the decode |
| `Base64.Encode` | stats_import.php:51 | the encoding's length is a multiple of four, four characters per three bytes rounded up |
| `Base64.EncodeDecode` | stats_import.php:51 | strict decoding reads back exactly the bytes any encoding was made from |
| `Base64.StrayCharRejected` | stats_import.php:51-54 | a character outside the alphabet, '=' and the skipped whitespace makes the decode fail, so the payload becomes '' |
| `Base64.DataAfterPaddingRejected` | stats_import.php:51-54 | an alphabet character after a '=' makes the decode fail |
| `StatsImport.DecodeOrEmpty` | stats_import.php:50-54 | the strict decode of the field with spaces turned into '+', or '' when that fails |
| `StatsImport.Snippet` | stats_import.php:61-64 | length min(length, 2000); every byte outside 0x20..0x7E becomes '.'; every byte shown is printable |
| `StatsImport.Run` | stats_import.php:33-77 | no data exactly when a field is ''; a debug record exactly otherwise, holding both lengths and snippets; an unregistered server id is refused; the importer receives the decoded bytes |
| `StatsImport.Payload` | stats_import.php:34-51 | the corrected derivation leaves no space and no NUL in the payload |
| `StatsImport.PayloadRecoversMangled` | stats_import.php:34-51 | restoring '+' before trimming recovers every encoded payload whose '+' characters arrived as spaces |
| `StatsImport.TrailingPlusLost` | stats_import.php:34-51 | as written, the bytes 0, 0, 62 arrive as "AAA " and decode to two bytes; the corrected derivation keeps all three |
| `Security.SanitizeString` | security.php:61-76 | no NUL byte remains, no trim character at either end, and the result is the NUL-free input with only trim characters cut from its two ends |
| `Security.SanitizeIdempotent` | security.php:53-78 | sanitising twice is sanitising once |
| `Security.Sanitize` | security.php:53-78 | a string is sanitised; an array is sanitised element by element with its keys and length kept |
| `Security.SanitizeEntriesPointwise` | security.php:54-58 | each array element becomes the sanitised value of the original at the same position |
| `Security.FetchParam` | security.php:109-134 | the default exactly when the key is not set, otherwise the sanitised value |
| `Security.TextParam` | stats_import.php:34-35 | an unset field reads '', a set one its sanitised text |
| `Security.Validate` | security.php:95-100 | the corrected check: 'alpha' holds exactly for non-empty letters, 'alphanumeric' exactly for non-empty letters and digits, 'username' exactly for 3..32 characters from its class; no accepted input holds a newline |
| `Security.TrailingNewlineAccepted` | security.php:95-100 | as written, a valid name followed by "\n" passes; the corrected check refuses it |
| `Security.ValidateAgreesWithoutNewline` | security.php:95-100 | on input without a newline, the code as written and the corrected check agree |
| `Security.VerifyPassword` | security.php:169-176 | a password equal to the stored value is accepted; otherwise the hash check decides |
| `Security.PlainTextAlwaysAccepted` | security.php:171-174 | a plain-text stored password is accepted for itself even when the hash check refuses everything |
| `Security.TypeLetter` | security.php:195-201 | 'i' exactly for an int, 'd' exactly for a float, 's' otherwise |
| `Security.PreparedTypes` | security.php:190-204 | nothing is bound exactly when there are no parameters; a given type string is kept unless PHP-empty; otherwise one letter per parameter |
| `ChronosConfig.UnquotePair` | chronos_config.php:31-33 | a value wrapped in a matching pair of quotes loses exactly that pair |
| `ChronosConfig.UnquoteKeepsUnmatched` | chronos_config.php:31-33 | a value without a matching pair of outer quotes is kept verbatim |
| `ChronosConfig.ParseLine` | chronos_config.php:20-37 | an assignment never has an empty name |
| `ChronosConfig.ParseLineActs` | chronos_config.php:20-25 | a line acts exactly when it holds '=' and its trim does not start with '#' |
| `ChronosConfig.ParseLineAssigns` | chronos_config.php:26-36 | the name is the trim before the first '=' and the value the unquoted trim of the rest, which may hold '='; an empty name ends the script |
| `ChronosConfig.Lines` | chronos_config.php:17 | the lines read are non-empty and hold no newline |
| `ChronosConfig.CarriageReturnIgnored` | chronos_config.php:17-36 | the '\r' of a "\r\n" line end changes nothing a line does, and a line of only "\r" is skipped |
| `PhpText.TrimIgnoresTrailing` | chronos_config.php:20-29 | a trailing trim character makes no difference to `trim` |
| `ChronosConfig.NonEmptyAppend` | chronos_config.php:17 | lines are read in order: the lines of two pieces in a row are those of each piece |
| `ChronosConfig.LinesFront` | chronos_config.php:17 | the first line comes first and an empty one is skipped; the rest are the lines after its newline |
| `ChronosConfig.LinesOfOneLine` | chronos_config.php:17 | text without a newline is one line, or none when empty |
| `ChronosConfig.LinesOfJoin` | chronos_config.php:17 | non-empty lines written one per line are read back exactly, in order and with repeats |
| `ChronosConfig.ApplyLines` | chronos_config.php:18-39 | applying lines never unsets a name |
| `ChronosConfig.LoadSpec` | chronos_config.php:12-41 | a missing file returns false and sets nothing; the load is cut short exactly when a line has an empty name; no name is unset |
| `ChronosConfig.LastAssignmentWins` | chronos_config.php:18-37 | a name holds the value of its last assignment, or keeps its earlier value when no line assigns it |
| `ChronosConfig.Env` | chronos_config.php:59-65 | the default exactly when the name is unset (or its value equals the default), else the stored value |
| `ChronosConfig.ReadSettings` | chronos_config.php:68-105 | database credentials with their defaults; the admin and FTP settings are left undefined exactly when the credentials are placeholders and no `.env` was loaded |
| `ChronosConfig.FirstExisting` | chronos_config.php:44-56 | the first existing candidate, every earlier one missing; none when all are missing |
| `ChronosConfig.Environment.LoadEnv` | chronos_config.php:12-41 | the loop changes the environment and returns exactly as `LoadSpec` says |
| `ChronosConfig.Environment.LoadFirst` | chronos_config.php:49-56 | loads the first existing `.env` and nothing else, and reports what its load did (loaded, or ended by a line with an empty name); not found and the environment unchanged when none exists |
| `AdminAuth.FindActive` | admin_auth.php:22-29 | the selected row is an active row with the name and no earlier row is; none when there is no such row |
| `AdminAuth.LegacyLogin` | admin_auth.php:77-86 | corrected fallback: the legacy admin exactly when both configured values are set and the trimmed name and the password equal them |
| `AdminAuth.Authenticate` | admin_auth.php:15-89 | locked: refused, nothing recorded; right password: the row is returned with its counter and lock cleared; wrong password: refused without fallback, one more failure, a lock until now + 1800 exactly from the fifth; no active row or no database: only the fallback; other rows and fields are untouched |
| `AdminAuth.AuthenticateKeepsTableValid` | admin_auth.php:48-66 | logins keep names and ids unique |
| `AdminAuth.WrongPasswordNeverFallsBack` | admin_auth.php:53-69 | a wrong password for an active user never reaches the legacy credentials |
| `AdminAuth.FailuresCount` | admin_auth.php:55-66 | n wrong passwords in a row add n failures and set the lock exactly when the count reaches five |
| `AdminAuth.FiveFailuresLockOut` | admin_auth.php:32-34 | after five wrong passwords even the right one is refused for the next 1800 seconds |
| `AdminAuth.EscapedLegacyNameRejected` | admin_auth.php:19 | as written, a configured name that the escaping changes can never log in through the fallback; the corrected comparison lets it in |
| `AdminAuth.MysqlEscape` | admin_auth.php:19 | escaping never shortens, and lengthens any name that holds a quote |
| `AdminAuth.QuotedNameIsEscaped` | admin_auth.php:19 | a name with a quote is changed by the escaping |
| `AdminAuth.CreateUser` | admin_auth.php:159-187 | refused exactly for a PHP-empty trimmed name or password, or a name already taken; otherwise an active row with the hashed password under a fresh id; unique names and ids are kept |
| `AdminAuth.SetActive` | admin_auth.php:258-288 | only the row with the id changes: its active flag is set; activation also clears the counter and lock, deactivation keeps them |
| `AdminAuth.DeactivatedUserFallsBack` | admin_auth.php:262-265 | a deactivated user cannot log in with any password; only the fallback remains |
| `AdminAuth.CleanLines` | admin_auth.php:359-369 | exactly the lines that are neither blank nor `--` comments are kept |
| `AdminAuth.CleanLinesAppend` | admin_auth.php:362-369 | cleaning keeps order and repeats: the kept lines of two parts in a row are those of each part |
| `AdminAuth.CleanLinesKeeps` | admin_auth.php:362-369 | lines none of which is blank or a comment are kept as they are |
| `AdminAuth.RunStatementsCounts` | admin_auth.php:377-403 | a run completes exactly when no statement throws, and counts a success exactly when one succeeded |
| `AdminAuth.MigrationResult` | admin_auth.php:342-351 | no file, or empty contents, gives false |
| `AdminAuth.MigrationSucceedsIff` | admin_auth.php:355-408 | the result is true exactly when some statement succeeded and none threw |
| `AdminAuth.DefaultPrefixRunsFileAsWritten` | admin_auth.php:355-357 | with the prefix "chronos" the placeholder replacement changes nothing, so the file runs as written |
| `AdminAuth.MigrationWithoutTableNames` | admin_auth.php:355-357 | a file that names neither table runs unchanged whatever the prefix |
| `AdminAuth.CreateAdminUsersTables` | admin_auth.php:323-409 | the runner returns exactly `MigrationResult` |
| `AdminAuth.RemoveComments` | admin_auth.php:360-369 | the cleaning loop keeps exactly `CleanLines` |
| `AdminAuth.RunAll` | admin_auth.php:377-408 | the statement loop returns true exactly when the run completes with a success |
| `AdminAuth.AdminUsers.Login` | admin_auth.php:15-89 | the table and result are exactly `Authenticate`'s |
| `AdminAuth.AdminUsers.CreateAdminUser` | admin_auth.php:159-187 | the table, counter and result are exactly `CreateUser`'s |
| `AdminAuth.AdminUsers.ActivateAdminUser` | admin_auth.php:276-288 | the table becomes `SetActive(…, true)` and the call reports true |
| `AdminAuth.AdminUsers.DeactivateAdminUser` | admin_auth.php:258-268 | the table becomes `SetActive(…, false)` and the call reports true |

## Left out

- Only integers bind to integer columns. MySQL's coercion of numeric strings and
  floats is not modelled; such a value is a refused statement.
- JSON numbers with a fraction or exponent are not modelled.
- Key comparisons are exact. Collation, case-insensitive matching and
  trailing-space matching are not modelled.
- Store.Database.Restore: restores the auto-increment counters too; InnoDB does
  not roll them back, so ids after a rollback can differ.
- Requests run one at a time. The check-then-insert races of the three upserts
  are not modelled.
- `last_seen`, `last_login`, `created_at` and `updated_at` timestamps come from
  the clock and are not modelled.
- The stored `kd_ratio` and `rating` columns are never written by the upserts,
  and nothing here recomputes them.
- TrackApi.Ingest: a weapon name or a player hash that is an array raises a
  TypeError at a `string` parameter (`Weapon::updateWeaponStats`,
  `Player::getPlayerByHash`). A TypeError is not an `Exception`: the script
  dies with a fatal error and no rollback statement. The model treats it like a
  caught exception (rollback, 500).
- PlayerTable.KDRatio: `round(…, 2)` is not modelled; the ratio is an exact real.
- WeaponTable.Accuracy: `round(…, 2)` is not modelled; the percentage is an exact real.
- CommonFunctions.FormatKD: `number_format` is not modelled; the figure is an exact real.
- `formatNumber` and `html` in `public/bootstrap.php`, and `formatDateTime` in
  `includes/functions.php`, are formatting and are not modelled.
- CommonFunctions.Paginate: requires perPage > 0. PHP raises a
  DivisionByZeroError for 0, and a negative perPage is not modelled.
- The `RATING_*` and `GAME_TYPE_*` constants are parameters; their values are
  not part of this model.
- `validate` and `validateInput` for 'int', 'float', 'email', 'url' and 'ip' call
  `filter_var`, which is not modelled. The `sanitizeInput` types other than
  'string' (int and float casts, email, url, html) are not modelled either.
- Bootstrap.TimeParts: the parts are bounded only for non-negative seconds;
  `Bootstrap.FormatTime` is stated for any integer.
- Argon2id hashing and verification are the parameters `hash` and `verify`.
  `password_needs_rehash` and the rehash on login are not modelled.
- AdminAuth.Authenticate: assumes `DBEscape` quotes the name correctly inside
  the SQL literal, so the lookup compares the trimmed name itself. An
  `UPDATE` that raises after the `SELECT` is not modelled.
- The migration file search is not modelled; the contents of the file found are
  an input. `error_log` output is not modelled.
- `updateAdminPassword`, `getAdminUser`, `getAllAdminUsers`, `logAdminActivity`,
  `recordFailedLogin`, `updateAdminLastLogin` and `adminUsersTableExists` are
  not part of this model.
- The email and full-name columns of `_admin_users` are not modelled.
- ChronosConfig.Environment.LoadEnv: keeps one map for both `putenv` and `$_ENV`, which
  the loader always sets together.
- The warning logged for a default admin password is not modelled.
- StatsImport.Run: the date, client IP and request method of the debug line,
  and the file append, are not modelled.
- StatsImport.Run: the server-id lookup is exact membership in the set of
  registered ids; the id interpolated into the SQL text is not modelled.
- StatsImport.Run: array-valued form fields are not modelled.
- `ImportStats` (the importer) is defined outside the modelled files and is not
  part of this model.
- `status_update.php` (`StatusUpdate`) is not part of this model.
- The maps table is only read by the source and is not modelled.
- CSRF tokens, `hashPassword`, `escapeSQL` and the execution part of
  `executePrepared` are not modelled.
- Sessions, pages and the admin screens are not modelled.

## Findings

| source | as written | input that shows it | evidently intended | confidence | as-written member | corrected member |
|---|---|---|---|---|---|---|
| security.php:96-100 | the patterns end in `$` without the D modifier, and PCRE's `$` also matches before a final newline | "abc\n" for 'alpha' (or "bob\n" for 'username') passes | only input made wholly of class characters passes | not executed | `Security.TrailingNewlineAccepted` | `Security.Validate` |
| stats_import.php:34 | `postParam` trims the field before spaces are turned back into '+' (line 51), so a '+' at either end of the base64 text that arrived as a space is dropped | the bytes 0, 0, 62 encode to "AAA+", arrive as "AAA ", and decode to the two bytes 0, 0 | every '+' is restored, so the decode gives back the bytes sent | not executed | `StatsImport.TrailingPlusLost` | `StatsImport.PayloadRecoversMangled` |
| admin_auth.php:78 | the legacy fallback compares the `DBEscape`d name (line 19) with the configured name | a configured admin name o'brien with its right password is refused | the trimmed name is compared unescaped | not executed | `AdminAuth.EscapedLegacyNameRejected` | `AdminAuth.LegacyLogin` |
