/**
 * `admin_auth.php`: the `_admin_users` table with its per-user lockout
 * (`failed_login_attempts`, `locked_until`), the legacy fallback to the
 * configured credentials, the create / activate / deactivate operations, and
 * the migration runner that strips comment lines and runs each statement.
 *
 * Time is the integer `now` (seconds); the Argon2id check is the predicate
 * `verify`, hashing the function `hash`, and `DBEscape` the function `escape`.
 */
module AdminAuth {
  import opened Wrappers
  import opened PhpText

  /** Five wrong passwords in a row lock the account ... */
  const MaxFailedAttempts := 5
  /** ... for thirty minutes. */
  const LockSeconds := 1800

  /** A row of `_admin_users`; `lockedUntil` is `None` for SQL NULL. */
  datatype AdminRow = AdminRow(
    id: nat, username: string, passwordHash: string, isActive: bool,
    failedAttempts: int, lockedUntil: Option<int>)

  /** What `authenticateAdmin` returns: `false`, the fetched row, or the legacy admin (id 0). */
  datatype AuthResult = Denied | DbUser(row: AdminRow) | LegacyAdmin(username: string)

  /** No two rows share a username, and every id is below the auto-increment counter and unique. */
  ghost predicate TableValid(rows: seq<AdminRow>, nextId: nat)
  {
    && (forall i, j :: 0 <= i < j < |rows| ==> rows[i].username != rows[j].username && rows[i].id != rows[j].id)
    && (forall i :: 0 <= i < |rows| ==> 0 < rows[i].id < nextId)
  }

  /** `SELECT ... WHERE username = '...' AND is_active = 1 LIMIT 1`: the first such row from index `from`. */
  function FindActive(rows: seq<AdminRow>, name: string, from: nat): (r: Option<nat>)
    requires from <= |rows|
    ensures r.Some? ==> from <= r.value < |rows| && rows[r.value].username == name && rows[r.value].isActive
    ensures r.Some? ==> forall k :: from <= k < r.value ==> !(rows[k].username == name && rows[k].isActive)
    ensures r.None? ==> forall k :: from <= k < |rows| ==> !(rows[k].username == name && rows[k].isActive)
    decreases |rows| - from
  {
    if from == |rows| then None
    else if rows[from].username == name && rows[from].isActive then Some(from)
    else FindActive(rows, name, from + 1)
  }

  /** The lock check: a lock time that is still in the future. */
  predicate IsLocked(row: AdminRow, now: int)
  {
    row.lockedUntil.Some? && row.lockedUntil.value > now
  }

  /**
   * The legacy fallback as written: the username is compared after
   * `DBEscape`, the password verbatim; `legacy` is the configured
   * (`$admin_name`, `$admin_pass`), `None` when either is unset.
   */
  function LegacyLoginAsWritten(name: string, password: string, legacy: Option<(string, string)>, escape: string -> string): AuthResult
  {
    if legacy.Some? && escape(name) == legacy.value.0 && password == legacy.value.1
    then LegacyAdmin(legacy.value.0) else Denied
  }

  /** The evidently intended fallback: the trimmed username itself is compared with the configured one. */
  function LegacyLogin(name: string, password: string, legacy: Option<(string, string)>): (r: AuthResult)
    ensures r.LegacyAdmin? <==> legacy.Some? && name == legacy.value.0 && password == legacy.value.1
    ensures r.LegacyAdmin? ==> r.username == name
    ensures !r.DbUser?
  {
    if legacy.Some? && name == legacy.value.0 && password == legacy.value.1
    then LegacyAdmin(legacy.value.0) else Denied
  }

  /**
   * `authenticateAdmin`: the table after the call and its result. The
   * trimmed name selects the active row; `dbAvailable` is false when the
   * query raises, which sends the call to the legacy fallback.
   */
  function Authenticate(
    rows: seq<AdminRow>, username: string, password: string, now: int,
    verify: (string, string) -> bool, escape: string -> string,
    legacy: Option<(string, string)>, dbAvailable: bool): (r: (seq<AdminRow>, AuthResult))
    ensures |r.0| == |rows|
    ensures forall k :: 0 <= k < |rows| && (r.0[k] != rows[k]) ==>
      dbAvailable && FindActive(rows, Trim(username), 0) == Some(k)
    ensures forall k :: 0 <= k < |rows| ==>
      r.0[k].id == rows[k].id && r.0[k].username == rows[k].username
      && r.0[k].passwordHash == rows[k].passwordHash && r.0[k].isActive == rows[k].isActive
    // no active row (or no database): nothing changes and only the legacy credentials can log in
    ensures (!dbAvailable || FindActive(rows, Trim(username), 0).None?) ==>
      r == (rows, LegacyLoginAsWritten(Trim(username), password, legacy, escape))
    ensures dbAvailable && FindActive(rows, Trim(username), 0).Some? ==>
      var i := FindActive(rows, Trim(username), 0).value;
      var row := rows[i];
      // a locked account: refused, nothing recorded
      && (IsLocked(row, now) ==> r == (rows, Denied))
      // the right password: the row is returned and its counter and lock are cleared
      && (!IsLocked(row, now) && verify(password, row.passwordHash) ==>
            r.1 == DbUser(row) && r.0[i].failedAttempts == 0 && r.0[i].lockedUntil == None)
      // a wrong password: refused without the legacy fallback; one more failure, locked from the fifth
      && (!IsLocked(row, now) && !verify(password, row.passwordHash) ==>
            && r.1 == Denied
            && r.0[i].failedAttempts == row.failedAttempts + 1
            && (r.0[i].lockedUntil.Some? <==> row.failedAttempts + 1 >= MaxFailedAttempts)
            && (r.0[i].lockedUntil.Some? ==> r.0[i].lockedUntil.value == now + LockSeconds))
  {
    var name := Trim(username);
    var found := if dbAvailable then FindActive(rows, name, 0) else None;
    if found.None? then (rows, LegacyLoginAsWritten(name, password, legacy, escape))
    else
      var i := found.value;
      var row := rows[i];
      if IsLocked(row, now) then (rows, Denied)
      else if verify(password, row.passwordHash) then
        (rows[i := row.(failedAttempts := 0, lockedUntil := None)], DbUser(row))
      else
        var failed := row.failedAttempts + 1;
        (rows[i := row.(failedAttempts := failed,
                        lockedUntil := if failed >= MaxFailedAttempts then Some(now + LockSeconds) else None)],
         Denied)
  }

  /** A login only changes counters and locks, so the table stays valid. */
  lemma AuthenticateKeepsTableValid(
    rows: seq<AdminRow>, nextId: nat, username: string, password: string, now: int,
    verify: (string, string) -> bool, escape: string -> string,
    legacy: Option<(string, string)>, dbAvailable: bool)
    requires TableValid(rows, nextId)
    ensures TableValid(Authenticate(rows, username, password, now, verify, escape, legacy, dbAvailable).0, nextId)
  {
  }

  /** A wrong password for an active, unlocked user never reaches the legacy fallback, whatever it holds. */
  lemma WrongPasswordNeverFallsBack(
    rows: seq<AdminRow>, username: string, password: string, now: int,
    verify: (string, string) -> bool, escape: string -> string, legacy: Option<(string, string)>)
    requires FindActive(rows, Trim(username), 0).Some?
    requires !verify(password, rows[FindActive(rows, Trim(username), 0).value].passwordHash)
    ensures !Authenticate(rows, username, password, now, verify, escape, legacy, true).1.LegacyAdmin?
  {
  }

  /** The table after a run of logins for one user, all at time `now`. */
  function Attempts(
    rows: seq<AdminRow>, username: string, passwords: seq<string>, now: int,
    verify: (string, string) -> bool, escape: string -> string, legacy: Option<(string, string)>): seq<AdminRow>
    decreases |passwords|
  {
    if passwords == [] then rows
    else
      var next := Authenticate(rows, username, passwords[0], now, verify, escape, legacy, true).0;
      Attempts(next, username, passwords[1..], now, verify, escape, legacy)
  }

  /**
   * Wrong passwords count up one at a time: from a row with `failed`
   * failures that is not locked, `n` wrong passwords (up to the fifth
   * failure) leave `failed + n` failures, and a lock of thirty minutes from
   * `now` exactly when that reaches five.
   */
  lemma {:induction false} FailuresCount(
    rows: seq<AdminRow>, i: nat, username: string, passwords: seq<string>, failed: int, now: int,
    verify: (string, string) -> bool, escape: string -> string, legacy: Option<(string, string)>)
    requires FindActive(rows, Trim(username), 0) == Some(i)
    requires rows[i].failedAttempts == failed && failed + |passwords| <= MaxFailedAttempts
    requires passwords != [] ==> !IsLocked(rows[i], now)
    requires forall k :: 0 <= k < |passwords| ==> !verify(passwords[k], rows[i].passwordHash)
    ensures |Attempts(rows, username, passwords, now, verify, escape, legacy)| == |rows|
    ensures Attempts(rows, username, passwords, now, verify, escape, legacy)[i].failedAttempts == failed + |passwords|
    ensures passwords != [] ==>
      Attempts(rows, username, passwords, now, verify, escape, legacy)[i].lockedUntil
      == if failed + |passwords| >= MaxFailedAttempts then Some(now + LockSeconds) else None
    ensures FindActive(Attempts(rows, username, passwords, now, verify, escape, legacy), Trim(username), 0) == Some(i)
    decreases |passwords|
  {
    if passwords != [] {
      var next := Authenticate(rows, username, passwords[0], now, verify, escape, legacy, true).0;
      FindActiveUnchanged(rows, next, Trim(username), i);
      FailuresCount(next, i, username, passwords[1..], failed + 1, now, verify, escape, legacy);
    }
  }

  /** Changing counters and locks of rows does not change which row a name selects. */
  lemma FindActiveUnchanged(rows: seq<AdminRow>, next: seq<AdminRow>, name: string, i: nat)
    requires FindActive(rows, name, 0) == Some(i)
    requires |next| == |rows|
    requires forall k :: 0 <= k < |rows| ==> next[k].username == rows[k].username && next[k].isActive == rows[k].isActive
    ensures FindActive(next, name, 0) == Some(i)
  {
    FindActiveSame(rows, next, name, 0);
  }

  lemma {:induction false} FindActiveSame(rows: seq<AdminRow>, next: seq<AdminRow>, name: string, from: nat)
    requires from <= |rows| == |next|
    requires forall k :: 0 <= k < |rows| ==> next[k].username == rows[k].username && next[k].isActive == rows[k].isActive
    ensures FindActive(next, name, from) == FindActive(rows, name, from)
    decreases |rows| - from
  {
    if from < |rows| {
      FindActiveSame(rows, next, name, from + 1);
    }
  }

  /**
   * The lockout: after five wrong passwords in a row, even the right password
   * is refused for the next thirty minutes.
   */
  lemma FiveFailuresLockOut(
    rows: seq<AdminRow>, i: nat, username: string, wrong: seq<string>, right: string, now: int, later: int,
    verify: (string, string) -> bool, escape: string -> string, legacy: Option<(string, string)>)
    requires FindActive(rows, Trim(username), 0) == Some(i)
    requires rows[i].failedAttempts == 0 && !IsLocked(rows[i], now)
    requires |wrong| == MaxFailedAttempts
    requires forall k :: 0 <= k < |wrong| ==> !verify(wrong[k], rows[i].passwordHash)
    requires now <= later < now + LockSeconds
    ensures Authenticate(Attempts(rows, username, wrong, now, verify, escape, legacy),
                         username, right, later, verify, escape, legacy, true).1 == Denied
  {
    FailuresCount(rows, i, username, wrong, 0, now, verify, escape, legacy);
  }

  /**
   * As written, a configured admin name that `DBEscape` changes (one with a
   * quote, say) can never log in through the fallback, even with the right
   * password; the intended comparison lets it in.
   */
  lemma EscapedLegacyNameRejected(name: string, password: string, escape: string -> string)
    requires escape(name) != name
    ensures LegacyLoginAsWritten(name, password, Some((name, password)), escape) == Denied
    ensures LegacyLogin(name, password, Some((name, password))) == LegacyAdmin(name)
  {
  }

  /** `mysqli::real_escape_string`: a backslash before NUL, newline, CR, quote, double quote, backslash and ^Z. */
  function MysqlEscape(s: string): (r: string)
    ensures |r| >= |s|
    ensures '\'' in s ==> |r| > |s|
  {
    if s == [] then []
    else
      var c := s[0];
      var e := if c == '\0' then "\\0" else if c == '\n' then "\\n" else if c == '\r' then "\\r"
               else if c == '\U{1A}' then "\\Z" else if c == '\'' || c == '"' || c == '\\' then ['\\', c]
               else [c];
      e + MysqlEscape(s[1..])
  }

  /** With the usual escape, a name with a quote is one the fallback refuses. */
  lemma QuotedNameIsEscaped(name: string)
    requires '\'' in name
    ensures MysqlEscape(name) != name
  {
  }

  /** Why `createAdminUser` adds no row. */
  datatype CreateResult = Created(id: nat) | Refused

  /**
   * `createAdminUser`: refused for a PHP-empty trimmed username or password,
   * or a username any row already has; otherwise an active row under a fresh id.
   */
  function CreateUser(rows: seq<AdminRow>, nextId: nat, username: string, password: string, hash: string -> string)
    : (r: (seq<AdminRow>, nat, CreateResult))
    ensures r.2 == Refused <==>
      IsEmptyString(Trim(username)) || IsEmptyString(password)
      || exists k :: 0 <= k < |rows| && rows[k].username == Trim(username)
    ensures r.2 == Refused ==> r.0 == rows && r.1 == nextId
    ensures r.2.Created? ==>
      && r.2.id == nextId && r.1 == nextId + 1
      && r.0 == rows + [AdminRow(nextId, Trim(username), hash(password), true, 0, None)]
    ensures TableValid(rows, nextId) && nextId > 0 ==> TableValid(r.0, r.1)
  {
    var name := Trim(username);
    if IsEmptyString(name) || IsEmptyString(password) then (rows, nextId, Refused)
    else if exists k :: 0 <= k < |rows| && rows[k].username == name then (rows, nextId, Refused)
    else (rows + [AdminRow(nextId, name, hash(password), true, 0, None)], nextId + 1, Created(nextId))
  }

  /** `activateAdminUser` / `deactivateAdminUser` on the row with `id`; other rows are untouched. */
  function SetActive(rows: seq<AdminRow>, id: int, active: bool): (r: seq<AdminRow>)
    ensures |r| == |rows|
    ensures forall k :: 0 <= k < |rows| && rows[k].id != id ==> r[k] == rows[k]
    ensures forall k :: 0 <= k < |rows| && rows[k].id == id ==>
      && r[k].isActive == active
      && r[k].id == rows[k].id && r[k].username == rows[k].username && r[k].passwordHash == rows[k].passwordHash
      // activation also clears the failure counter and the lock; deactivation leaves them
      && (active ==> r[k].failedAttempts == 0 && r[k].lockedUntil == None)
      && (!active ==> r[k].failedAttempts == rows[k].failedAttempts && r[k].lockedUntil == rows[k].lockedUntil)
  {
    if rows == [] then []
    else
      var row := rows[0];
      var updated :=
        if row.id != id then row
        else if active then row.(isActive := true, failedAttempts := 0, lockedUntil := None)
        else row.(isActive := false);
      [updated] + SetActive(rows[1..], id, active)
  }

  /** A deactivated user cannot log in with any password, at any time; only the fallback remains. */
  lemma DeactivatedUserFallsBack(
    rows: seq<AdminRow>, nextId: nat, id: int, username: string, password: string, now: int,
    verify: (string, string) -> bool, escape: string -> string, legacy: Option<(string, string)>)
    requires TableValid(rows, nextId)
    requires exists k :: 0 <= k < |rows| && rows[k].id == id && rows[k].username == Trim(username)
    ensures Authenticate(SetActive(rows, id, false), username, password, now, verify, escape, legacy, true).1
            == LegacyLoginAsWritten(Trim(username), password, legacy, escape)
  {
    var after := SetActive(rows, id, false);
    var k :| 0 <= k < |rows| && rows[k].id == id && rows[k].username == Trim(username);
    forall j | 0 <= j < |after|
      ensures !(after[j].username == Trim(username) && after[j].isActive)
    {
      if j != k {
        assert rows[j].username != rows[k].username;
      }
    }
  }

  /** `str_replace($pattern, $replacement, $s)`: every occurrence, left to right, without overlaps. */
  function ReplaceAll(s: string, pattern: string, replacement: string): string
    requires pattern != []
  {
    if |s| < |pattern| then s
    else if s[..|pattern|] == pattern then replacement + ReplaceAll(s[|pattern|..], pattern, replacement)
    else [s[0]] + ReplaceAll(s[1..], pattern, replacement)
  }

  predicate OccursAt(s: string, pattern: string, k: nat)
  {
    k + |pattern| <= |s| && s[k..k + |pattern|] == pattern
  }

  /** Text in which the pattern never occurs is left as it is. */
  lemma {:induction false} ReplaceAllWithoutOccurrence(s: string, pattern: string, replacement: string)
    requires pattern != []
    requires forall k: nat :: k < |s| ==> !OccursAt(s, pattern, k)
    ensures ReplaceAll(s, pattern, replacement) == s
  {
    if |s| >= |pattern| {
      assert !OccursAt(s, pattern, 0);
      forall k: nat | k < |s[1..]|
        ensures !OccursAt(s[1..], pattern, k)
      {
        assert !OccursAt(s, pattern, k + 1);
        if k + |pattern| <= |s[1..]| {
          assert s[1..][k..k + |pattern|] == s[k + 1..k + 1 + |pattern|];
        }
      }
      ReplaceAllWithoutOccurrence(s[1..], pattern, replacement);
    }
  }

  /** A migration line that is dropped: blank (PHP-empty after trimming) or a `--` comment. */
  predicate Dropped(line: string)
  {
    IsEmptyString(Trim(line)) || StartsWith(Trim(line), "--")
  }

  /** The lines the cleaning keeps, in their order: exactly those not dropped. */
  function CleanLines(lines: seq<string>): (r: seq<string>)
    ensures |r| <= |lines|
    ensures forall k :: 0 <= k < |r| ==> !Dropped(r[k]) && r[k] in lines
    ensures forall line :: line in lines && !Dropped(line) ==> line in r
  {
    if lines == [] then []
    else
      var last := lines[|lines| - 1];
      var init := lines[..|lines| - 1];
      assert lines == init + [last];
      CleanLines(init) + (if Dropped(last) then [] else [last])
  }

  /** Cleaning keeps the order and the repetitions: the kept lines of a concatenation are those of each part. */
  lemma {:induction false} CleanLinesAppend(a: seq<string>, b: seq<string>)
    ensures CleanLines(a + b) == CleanLines(a) + CleanLines(b)
  {
    if b == [] {
      assert a + b == a;
    } else {
      var init := b[..|b| - 1];
      assert (a + b)[..|a + b| - 1] == a + init;
      assert (a + b)[|a + b| - 1] == b[|b| - 1];
      CleanLinesAppend(a, init);
    }
  }

  /** A file with no comment or blank line is kept as it is. */
  lemma {:induction false} CleanLinesKeeps(lines: seq<string>)
    requires forall k :: 0 <= k < |lines| ==> !Dropped(lines[k])
    ensures CleanLines(lines) == lines
  {
    if lines != [] {
      CleanLinesKeeps(lines[..|lines| - 1]);
    }
  }

  /** The statements: the cleaned text split at every ';'. */
  function Statements(sql: string): seq<string>
  {
    Split(Join(CleanLines(Split(sql, '\n')), '\n'), ';')
  }

  /** What running one statement gave: a result, `false`, or an exception. */
  datatype QueryOutcome = Succeeded | ReturnedFalse | Threw

  /** A statement that is run: one whose trim is not PHP-empty. */
  predicate Executed(statement: string)
  {
    !IsEmptyString(Trim(statement))
  }

  /**
   * The number of statements that succeeded, running them in order and
   * numbering them from 1 (`exec` gives the outcome of statement number n);
   * `None` when one threw, which ends the run.
   */
  function RunStatements(statements: seq<string>, exec: nat -> QueryOutcome): (r: Option<nat>)
    ensures r.Some? ==> r.value <= |statements|
  {
    if statements == [] then Some(0)
    else
      var n := |statements|;
      match RunStatements(statements[..n - 1], exec)
      case None => None
      case Some(count) =>
        if !Executed(statements[n - 1]) then Some(count)
        else if exec(n) == Succeeded then Some(count + 1)
        else if exec(n) == ReturnedFalse then Some(count)
        else None
  }

  /** No executed statement threw. */
  ghost predicate NoneThrew(statements: seq<string>, exec: nat -> QueryOutcome)
  {
    forall k :: 0 <= k < |statements| && Executed(statements[k]) ==> exec(k + 1) != Threw
  }

  /** Some executed statement succeeded. */
  ghost predicate SomeSucceeded(statements: seq<string>, exec: nat -> QueryOutcome)
  {
    exists k :: 0 <= k < |statements| && Executed(statements[k]) && exec(k + 1) == Succeeded
  }

  /** A run completes exactly when no statement throws, and counts at least one success exactly when one succeeds. */
  lemma {:induction false} RunStatementsCounts(statements: seq<string>, exec: nat -> QueryOutcome)
    ensures RunStatements(statements, exec).Some? <==> NoneThrew(statements, exec)
    ensures RunStatements(statements, exec).Some? ==>
      (RunStatements(statements, exec).value > 0 <==> SomeSucceeded(statements, exec))
  {
    if statements != [] {
      var n := |statements|;
      var init := statements[..n - 1];
      RunStatementsCounts(init, exec);
      assert forall k :: 0 <= k < n - 1 ==> init[k] == statements[k];
      if NoneThrew(init, exec) && SomeSucceeded(init, exec) {
        var k :| 0 <= k < |init| && Executed(init[k]) && exec(k + 1) == Succeeded;
        assert Executed(statements[k]) && exec(k + 1) == Succeeded;
      }
      if SomeSucceeded(statements, exec) && NoneThrew(statements, exec) && !SomeSucceeded(init, exec) {
        var k :| 0 <= k < n && Executed(statements[k]) && exec(k + 1) == Succeeded;
        assert k == n - 1;
      }
    }
  }

  /**
   * `createAdminUsersTables` after the file search: `file` is the migration
   * file found (`None` when there is none), `prefix` the table prefix. True
   * exactly when the file has content and at least one statement succeeded
   * with none throwing.
   */
  function MigrationResult(file: Option<string>, prefix: string, exec: nat -> QueryOutcome): (r: bool)
    ensures file.None? ==> !r
    ensures file.Some? && IsEmptyString(file.value) ==> !r
  {
    if file.None? || IsEmptyString(file.value) then false
    else
      var sql := ReplaceAll(ReplaceAll(file.value, "chronos_admin_users", prefix + "_admin_users"),
                            "chronos_admin_log", prefix + "_admin_log");
      var run := RunStatements(Statements(sql), exec);
      run.Some? && run.value > 0
  }

  /** Replacing a name by itself changes nothing. */
  lemma {:induction false} ReplaceAllSame(s: string, pattern: string)
    requires pattern != []
    ensures ReplaceAll(s, pattern, pattern) == s
  {
    if |s| >= |pattern| {
      if s[..|pattern|] == pattern {
        ReplaceAllSame(s[|pattern|..], pattern);
        assert s == s[..|pattern|] + s[|pattern|..];
      } else {
        ReplaceAllSame(s[1..], pattern);
        assert s == [s[0]] + s[1..];
      }
    }
  }

  /** With the default prefix "chronos", the migration runs the file as written. */
  lemma DefaultPrefixRunsFileAsWritten(file: Option<string>, exec: nat -> QueryOutcome)
    requires file.Some? && !IsEmptyString(file.value)
    ensures MigrationResult(file, "chronos", exec)
            <==> NoneThrew(Statements(file.value), exec) && SomeSucceeded(Statements(file.value), exec)
  {
    assert "chronos" + "_admin_users" == "chronos_admin_users";
    assert "chronos" + "_admin_log" == "chronos_admin_log";
    ReplaceAllSame(file.value, "chronos_admin_users");
    ReplaceAllSame(file.value, "chronos_admin_log");
    MigrationSucceedsIff(file, "chronos", exec);
  }

  /** A file that names neither table runs unchanged whatever the prefix. */
  lemma MigrationWithoutTableNames(file: Option<string>, prefix: string, exec: nat -> QueryOutcome)
    requires file.Some? && !IsEmptyString(file.value)
    requires forall k: nat :: k < |file.value| ==> !OccursAt(file.value, "chronos_admin_users", k)
    requires forall k: nat :: k < |file.value| ==> !OccursAt(file.value, "chronos_admin_log", k)
    ensures MigrationResult(file, prefix, exec)
            <==> NoneThrew(Statements(file.value), exec) && SomeSucceeded(Statements(file.value), exec)
  {
    ReplaceAllWithoutOccurrence(file.value, "chronos_admin_users", prefix + "_admin_users");
    ReplaceAllWithoutOccurrence(file.value, "chronos_admin_log", prefix + "_admin_log");
    MigrationSucceedsIff(file, prefix, exec);
  }

  /** The result is true exactly when some statement succeeded and none threw. */
  lemma MigrationSucceedsIff(file: Option<string>, prefix: string, exec: nat -> QueryOutcome)
    requires file.Some? && !IsEmptyString(file.value)
    ensures
      var sql := ReplaceAll(ReplaceAll(file.value, "chronos_admin_users", prefix + "_admin_users"),
                            "chronos_admin_log", prefix + "_admin_log");
      MigrationResult(file, prefix, exec)
      <==> NoneThrew(Statements(sql), exec) && SomeSucceeded(Statements(sql), exec)
  {
    var sql := ReplaceAll(ReplaceAll(file.value, "chronos_admin_users", prefix + "_admin_users"),
                          "chronos_admin_log", prefix + "_admin_log");
    RunStatementsCounts(Statements(sql), exec);
  }

  /** The migration runner: clean the lines, split the statements, run them. */
  method CreateAdminUsersTables(file: Option<string>, prefix: string, exec: nat -> QueryOutcome) returns (ok: bool)
    ensures ok == MigrationResult(file, prefix, exec)
  {
    if file.None? || IsEmptyString(file.value) {
      return false;
    }
    var sql := ReplaceAll(file.value, "chronos_admin_users", prefix + "_admin_users");
    sql := ReplaceAll(sql, "chronos_admin_log", prefix + "_admin_log");
    var cleaned := RemoveComments(Split(sql, '\n'));
    var statements := Split(Join(cleaned, '\n'), ';');
    ok := RunAll(statements, exec);
  }

  /** The cleaning loop: keep the lines that are neither blank nor comments. */
  method RemoveComments(lines: seq<string>) returns (cleaned: seq<string>)
    ensures cleaned == CleanLines(lines)
  {
    cleaned := [];
    var i := 0;
    while i < |lines|
      invariant 0 <= i <= |lines|
      invariant cleaned == CleanLines(lines[..i])
    {
      assert lines[..i + 1][..i] == lines[..i];
      if !Dropped(lines[i]) {
        cleaned := cleaned + [lines[i]];
      }
      i := i + 1;
    }
    assert lines[..i] == lines;
  }

  /** The statement loop: skip empty statements, count successes, give up on an exception. */
  method RunAll(statements: seq<string>, exec: nat -> QueryOutcome) returns (ok: bool)
    ensures ok <==> RunStatements(statements, exec).Some? && RunStatements(statements, exec).value > 0
  {
    var successes := 0;
    var num := 0;
    while num < |statements|
      invariant 0 <= num <= |statements|
      invariant RunStatements(statements[..num], exec) == Some(successes)
    {
      assert statements[..num + 1][..num] == statements[..num];
      var statement := Trim(statements[num]);
      num := num + 1;
      if IsEmptyString(statement) {
        continue;
      }
      var outcome := exec(num);
      if outcome == Threw {
        ThrowEndsRun(statements, num, exec);
        return false;
      }
      if outcome == Succeeded {
        successes := successes + 1;
      }
    }
    assert statements[..num] == statements;
    return successes > 0;
  }

  /** Once a statement has thrown, the whole run is a failure. */
  lemma {:induction false} ThrowEndsRun(statements: seq<string>, n: nat, exec: nat -> QueryOutcome)
    requires n <= |statements|
    requires RunStatements(statements[..n], exec).None?
    ensures RunStatements(statements, exec).None?
    decreases |statements| - n
  {
    if n < |statements| {
      assert statements[..n + 1][..n] == statements[..n];
      ThrowEndsRun(statements, n + 1, exec);
    } else {
      assert statements[..n] == statements;
    }
  }

  /** The `_admin_users` table, changed in place by the login and account operations. */
  class AdminUsers {
    var rows: seq<AdminRow>
    var nextId: nat

    constructor ()
      ensures rows == [] && nextId == 1
      ensures TableValid(rows, nextId)
    {
      rows := [];
      nextId := 1;
    }

    method Login(
      username: string, password: string, now: int,
      verify: (string, string) -> bool, escape: string -> string,
      legacy: Option<(string, string)>, dbAvailable: bool) returns (r: AuthResult)
      modifies this
      ensures (rows, r) == Authenticate(old(rows), username, password, now, verify, escape, legacy, dbAvailable)
      ensures nextId == old(nextId)
    {
      var name := Trim(username);
      var found := if dbAvailable then FindActive(rows, name, 0) else None;
      if found.None? {
        return LegacyLoginAsWritten(name, password, legacy, escape);
      }
      var i := found.value;
      var row := rows[i];
      if IsLocked(row, now) {
        return Denied;
      }
      if verify(password, row.passwordHash) {
        rows := rows[i := row.(failedAttempts := 0, lockedUntil := None)];
        return DbUser(row);
      }
      var failed := row.failedAttempts + 1;
      var lock := None;
      if failed >= MaxFailedAttempts {
        lock := Some(now + LockSeconds);
      }
      rows := rows[i := row.(failedAttempts := failed, lockedUntil := lock)];
      return Denied;
    }

    method CreateAdminUser(username: string, password: string, hash: string -> string) returns (r: CreateResult)
      modifies this
      ensures (rows, nextId, r) == CreateUser(old(rows), old(nextId), username, password, hash)
    {
      var name := Trim(username);
      if IsEmptyString(name) || IsEmptyString(password) {
        return Refused;
      }
      var k := 0;
      while k < |rows|
        invariant 0 <= k <= |rows|
        invariant forall j :: 0 <= j < k ==> rows[j].username != name
      {
        if rows[k].username == name {
          return Refused;
        }
        k := k + 1;
      }
      rows := rows + [AdminRow(nextId, name, hash(password), true, 0, None)];
      r := Created(nextId);
      nextId := nextId + 1;
    }

    method ActivateAdminUser(id: int) returns (ok: bool)
      modifies this
      ensures rows == SetActive(old(rows), id, true) && nextId == old(nextId) && ok
    {
      rows := SetActive(rows, id, true);
      ok := true;
    }

    method DeactivateAdminUser(id: int) returns (ok: bool)
      modifies this
      ensures rows == SetActive(old(rows), id, false) && nextId == old(nextId) && ok
    {
      rows := SetActive(rows, id, false);
      ok := true;
    }
  }
}
