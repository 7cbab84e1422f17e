/**
 * `chronos_config.php`: the `.env` loader, the `env` lookup with a default,
 * and the placeholder check that decides whether the rest of the settings
 * are defined. The process environment is a map from names to values that
 * `putenv` changes one assignment at a time.
 */
module ChronosConfig {
  import opened Wrappers
  import opened PhpText

  /** What one line of a `.env` file does. */
  datatype LineEffect =
    | Skip
    | Assign(key: string, value: string)
    /** a line whose name trims to nothing: `putenv("=...")` throws, ending the script */
    | BadName

  /** `explode($sep, $line, 2)` on a line that holds `sep`: the text before the first `sep` and the rest. */
  function SplitFirst(line: string, sep: char): (r: (string, string))
    requires sep in line
    ensures line == r.0 + [sep] + r.1
    ensures sep !in r.0
  {
    if line[0] == sep then ([], line[1..])
    else
      var rest := SplitFirst(line[1..], sep);
      ([line[0]] + rest.0, rest.1)
  }

  predicate IsQuote(c: char)
  {
    c == '"' || c == '\''
  }

  /** `preg_match('/^(["\'])(.*)\1$/', ...)`: one matching pair of outer quotes is removed. */
  function Unquote(value: string): string
  {
    if |value| >= 2 && IsQuote(value[0]) && value[|value| - 1] == value[0]
    then value[1..|value| - 1]
    else value
  }

  /** A value wrapped in a matching pair of quotes loses exactly that pair. */
  lemma UnquotePair(q: char, inner: string)
    requires IsQuote(q)
    ensures Unquote([q] + inner + [q]) == inner
  {
  }

  /** A value without a matching pair of outer quotes is kept verbatim. */
  lemma UnquoteKeepsUnmatched(value: string)
    requires value == [] || !IsQuote(value[0]) || |value| < 2 || value[|value| - 1] != value[0]
    ensures Unquote(value) == value
  {
  }

  /**
   * One line: a line whose trim starts with '#' and a line without '=' are
   * skipped; otherwise the name is the trimmed text before the first '=',
   * and the value the trimmed, unquoted rest, which may hold more '='.
   */
  function ParseLine(line: string): (r: LineEffect)
    ensures r.Assign? ==> r.key != []
  {
    if StartsWith(Trim(line), "#") || '=' !in line then Skip
    else
      var (before, after) := SplitFirst(line, '=');
      var key := Trim(before);
      if key == [] then BadName else Assign(key, Unquote(Trim(after)))
  }

  /** A line acts exactly when it holds '=' and its trim does not start with '#'. */
  lemma ParseLineActs(line: string)
    ensures !ParseLine(line).Skip? <==> '=' in line && !StartsWith(Trim(line), "#")
  {
  }

  /**
   * An assignment's name is the trimmed text before the first '=' and its
   * value the unquoted trim of everything after it; a name that trims to
   * nothing ends the script instead.
   */
  lemma ParseLineAssigns(line: string, before: string, after: string)
    requires line == before + "=" + after && '=' !in before
    requires !StartsWith(Trim(line), "#")
    ensures Trim(before) != [] ==> ParseLine(line) == Assign(Trim(before), Unquote(Trim(after)))
    ensures Trim(before) == [] ==> ParseLine(line) == BadName
  {
    assert line[|before|] == '=';
    SplitFirstUnique(line, '=', before, after);
  }

  /**
   * The '\r' a "\r\n" line end leaves at the end of a line changes nothing
   * the line does, and a line that is only "\r" is skipped.
   */
  lemma CarriageReturnIgnored(line: string)
    ensures ParseLine(line + "\r") == ParseLine(line)
    ensures ParseLine("\r") == Skip
  {
    TrimIgnoresTrailing(line, '\r');
    assert forall c :: c in line + "\r" <==> c in line || c == '\r';
    if '=' in line && !StartsWith(Trim(line), "#") {
      var (before, after) := SplitFirst(line, '=');
      assert line + "\r" == before + "=" + (after + "\r");
      SplitFirstUnique(line + "\r", '=', before, after + "\r");
      TrimIgnoresTrailing(after, '\r');
    }
  }

  lemma {:induction false} SplitFirstUnique(line: string, sep: char, before: string, after: string)
    requires line == before + [sep] + after && sep !in before
    ensures sep in line && SplitFirst(line, sep) == (before, after)
  {
    assert line[|before|] == sep;
    if before != [] {
      assert line[0] == before[0] != sep;
      assert line[1..] == before[1..] + [sep] + after;
      SplitFirstUnique(line[1..], sep, before[1..], after);
      assert [before[0]] + before[1..] == before;
    }
  }

  /**
   * The non-empty lines of a file, split at '\n'. This is what
   * `file($path, FILE_IGNORE_NEW_LINES | FILE_SKIP_EMPTY_LINES)` returns for
   * '\n' line ends. PHP also drops the '\r' of a "\r\n" line end and so skips
   * a line that is only "\r"; here both stay. Nothing loaded differs, as
   * `CarriageReturnIgnored` states: `ParseLine` trims the '\r' off the value,
   * and skips a lone "\r", which holds no '='.
   */
  function Lines(contents: string): (r: seq<string>)
    ensures forall k :: 0 <= k < |r| ==> r[k] != [] && '\n' !in r[k]
  {
    NonEmpty(Split(contents, '\n'))
  }

  function NonEmpty(pieces: seq<string>): (r: seq<string>)
    ensures forall k :: 0 <= k < |r| ==> r[k] != [] && r[k] in pieces
  {
    if pieces == [] then []
    else (if pieces[0] == [] then [] else [pieces[0]]) + NonEmpty(pieces[1..])
  }

  /** Lines are read in order: the pieces of a concatenation are those of each part. */
  lemma {:induction false} NonEmptyAppend(a: seq<string>, b: seq<string>)
    ensures NonEmpty(a + b) == NonEmpty(a) + NonEmpty(b)
  {
    if a != [] {
      assert (a + b)[0] == a[0] && (a + b)[1..] == a[1..] + b;
      NonEmptyAppend(a[1..], b);
      var head := if a[0] == [] then [] else [a[0]];
      assert NonEmpty(a + b) == head + (NonEmpty(a[1..]) + NonEmpty(b));
    } else {
      assert a + b == b;
    }
  }

  /**
   * The first line of a file comes first, an empty one is dropped, and the
   * rest are the lines of what follows its newline.
   */
  lemma LinesFront(line: string, rest: string)
    requires '\n' !in line
    ensures Lines(line + "\n" + rest) == (if line == [] then [] else [line]) + Lines(rest)
  {
    SplitAfterPiece(line, '\n', rest);
    NonEmptyAppend([line], Split(rest, '\n'));
  }

  /** Text without a newline is one line, or none when it is empty. */
  lemma LinesOfOneLine(line: string)
    requires '\n' !in line
    ensures Lines(line) == (if line == [] then [] else [line])
  {
    SplitNoSeparator(line, '\n');
    assert [line][1..] == [];
    assert NonEmpty([line]) == (if line == [] then [] else [line]) + NonEmpty([]);
  }

  lemma {:induction false} NonEmptyKeeps(pieces: seq<string>)
    requires forall k :: 0 <= k < |pieces| ==> pieces[k] != []
    ensures NonEmpty(pieces) == pieces
  {
    if pieces != [] {
      NonEmptyKeeps(pieces[1..]);
    }
  }

  /** Non-empty lines written one per line are read back exactly. */
  lemma LinesOfJoin(lines: seq<string>)
    requires |lines| >= 1
    requires forall k :: 0 <= k < |lines| ==> lines[k] != [] && '\n' !in lines[k]
    ensures Lines(Join(lines, '\n')) == lines
  {
    SplitJoin(lines, '\n');
    NonEmptyKeeps(lines);
  }

  /** The outcome of `loadEnv`. */
  datatype LoadResult = NotFound | Loaded | Aborted

  /**
   * The environment after applying `lines` in order, and whether every line
   * was applied (`false` when a line with an empty name ended the script).
   */
  function ApplyLines(vars: map<string, string>, lines: seq<string>): (r: (map<string, string>, bool))
    ensures vars.Keys <= r.0.Keys
    decreases |lines|
  {
    if lines == [] then (vars, true)
    else match ParseLine(lines[0])
      case Skip => ApplyLines(vars, lines[1..])
      case BadName => (vars, false)
      case Assign(key, value) => ApplyLines(vars[key := value], lines[1..])
  }

  /** `loadEnv($path)` where `file` is the file's contents, `None` when it does not exist. */
  function LoadSpec(vars: map<string, string>, file: Option<string>): (r: (map<string, string>, LoadResult))
    ensures file.None? <==> r.1 == NotFound
    ensures file.None? ==> r.0 == vars
    ensures r.1 == Aborted <==> file.Some? && !ApplyLines(vars, Lines(file.value)).1
    ensures vars.Keys <= r.0.Keys
  {
    match file
    case None => (vars, NotFound)
    case Some(contents) =>
      var (after, complete) := ApplyLines(vars, Lines(contents));
      (after, if complete then Loaded else Aborted)
  }

  /** The value the last assignment to `key` among `lines` gives it, if any line assigns it. */
  function LastAssigned(lines: seq<string>, key: string): Option<string>
  {
    if lines == [] then None
    else
      var e := ParseLine(lines[|lines| - 1]);
      if e.Assign? && e.key == key then Some(e.value) else LastAssigned(lines[..|lines| - 1], key)
  }

  /**
   * Later lines override earlier ones: when every line is applied, a name
   * holds the value of its last assignment, or its earlier value when no
   * line assigns it.
   */
  lemma {:induction false} LastAssignmentWins(vars: map<string, string>, lines: seq<string>, key: string)
    requires ApplyLines(vars, lines).1
    ensures LastAssigned(lines, key).Some? ==>
      key in ApplyLines(vars, lines).0 && ApplyLines(vars, lines).0[key] == LastAssigned(lines, key).value
    ensures LastAssigned(lines, key).None? ==>
      (key in ApplyLines(vars, lines).0 <==> key in vars)
      && (key in vars ==> ApplyLines(vars, lines).0[key] == vars[key])
    decreases |lines|
  {
    if lines != [] {
      var e := ParseLine(lines[0]);
      var next := if e.Assign? then vars[e.key := e.value] else vars;
      LastAssignmentWins(next, lines[1..], key);
      LastAssignedFront(lines, key);
    }
  }

  /** `LastAssigned` read from the front: the rest decides, unless it never assigns the key. */
  lemma {:induction false} LastAssignedFront(lines: seq<string>, key: string)
    requires lines != []
    ensures LastAssigned(lines, key) ==
      if LastAssigned(lines[1..], key).Some? then LastAssigned(lines[1..], key)
      else if ParseLine(lines[0]).Assign? && ParseLine(lines[0]).key == key then Some(ParseLine(lines[0]).value)
      else None
  {
    if |lines| > 1 {
      var n := |lines| - 1;
      assert lines[1..][..n - 1] == lines[..n][1..];
      LastAssignedFront(lines[..n], key);
      assert lines[1..][n - 1] == lines[n];
    }
  }

  /** `env($key, $default)`: the default exactly when the name is unset. */
  function Env(vars: map<string, string>, key: string, default: Option<string>): (r: Option<string>)
    ensures r == default <==> key !in vars || Some(vars[key]) == default
    ensures key in vars ==> r == Some(vars[key])
  {
    if key in vars then Some(vars[key]) else default
  }

  /** The placeholder check on the database user and password. */
  predicate HasPlaceholders(user: string, password: string)
  {
    user == "your_database_user" || user == "" || password == "your_database_password" || password == ""
  }

  /** The settings the file defines: the admin and FTP ones only when it does not return early. */
  datatype Settings = Settings(
    dbHost: string, dbName: string, dbUser: string, dbPassword: string,
    tablePrefix: string, monthlyTablePrefix: string,
    admin: Option<(string, string)>, ftp: Option<FtpSettings>)

  datatype FtpSettings = FtpSettings(user: string, password: string, root: string, server: string)

  /**
   * The settings read from the environment after loading; the file returns
   * before the admin and FTP settings when the database credentials are
   * placeholders and no `.env` file was loaded.
   */
  function ReadSettings(vars: map<string, string>, envLoaded: bool): (r: Settings)
    ensures r.dbUser == Env(vars, "DB_USERNAME", Some("")).value
    ensures r.dbPassword == Env(vars, "DB_PASSWORD", Some("")).value
    ensures r.admin.None? <==> HasPlaceholders(r.dbUser, r.dbPassword) && !envLoaded
    ensures r.ftp.None? <==> r.admin.None?
    ensures "DB_HOST" !in vars ==> r.dbHost == "localhost"
    ensures r.admin.Some? && "ADMIN_PASSWORD" !in vars ==> r.admin.value.1 == "changeme"
  {
    var user := Env(vars, "DB_USERNAME", Some("")).value;
    var password := Env(vars, "DB_PASSWORD", Some("")).value;
    var db := Settings(
      Env(vars, "DB_HOST", Some("localhost")).value, Env(vars, "DB_NAME", Some("devilishservices_stats")).value,
      user, password,
      Env(vars, "DB_TABLE_PREFIX", Some("chronos")).value, Env(vars, "DB_TABLE_PREFIX_MONTHLY", Some("chronos_m")).value,
      None, None);
    if HasPlaceholders(user, password) && !envLoaded then db
    else db.(
      admin := Some((Env(vars, "ADMIN_USERNAME", Some("admin")).value, Env(vars, "ADMIN_PASSWORD", Some("changeme")).value)),
      ftp := Some(FtpSettings(
        Env(vars, "FTP_USERNAME", Some("")).value, Env(vars, "FTP_PASSWORD", Some("")).value,
        Env(vars, "FTP_ROOT", Some("upload")).value, Env(vars, "FTP_SERVER", Some("localhost")).value)))
  }

  /** The index of the first existing candidate file, if any. */
  function FirstExisting(files: seq<Option<string>>): (r: Option<nat>)
    ensures r.Some? ==> r.value < |files| && files[r.value].Some?
                        && forall k :: 0 <= k < r.value ==> files[k].None?
    ensures r.None? ==> forall k :: 0 <= k < |files| ==> files[k].None?
  {
    if files == [] then None
    else if files[0].Some? then Some(0)
    else match FirstExisting(files[1..])
      case None => None
      case Some(i) => Some(i + 1)
  }

  /** The process environment, changed in place by `putenv`. */
  class Environment {
    var vars: map<string, string>

    constructor (initial: map<string, string>)
      ensures vars == initial
    {
      vars := initial;
    }

    /** `loadEnv`: apply the file's lines one at a time. */
    method LoadEnv(file: Option<string>) returns (r: LoadResult)
      modifies this
      ensures (vars, r) == LoadSpec(old(vars), file)
    {
      if file.None? {
        return NotFound;
      }
      var lines := Lines(file.value);
      ghost var target := ApplyLines(vars, lines);
      var i := 0;
      while i < |lines|
        invariant 0 <= i <= |lines|
        invariant ApplyLines(vars, lines[i..]) == target
      {
        var e := ParseLine(lines[i]);
        assert lines[i..][1..] == lines[i + 1..];
        if e.BadName? {
          return Aborted;
        } else if e.Assign? {
          vars := vars[e.key := e.value];
        }
        i := i + 1;
      }
      assert lines[i..] == [];
      return Loaded;
    }

    /**
     * The candidate loop: load the first file that exists and stop. The
     * result is that load's outcome, `NotFound` when no candidate exists;
     * `$envLoaded` is set exactly when it is `Loaded`, since `Aborted` means
     * the script ended inside `loadEnv`.
     */
    method LoadFirst(files: seq<Option<string>>) returns (r: LoadResult)
      modifies this
      ensures FirstExisting(files).None? ==> r == NotFound && vars == old(vars)
      ensures FirstExisting(files).Some? ==> (vars, r) == LoadSpec(old(vars), files[FirstExisting(files).value]) && r != NotFound
    {
      r := NotFound;
      var i := 0;
      while i < |files|
        invariant 0 <= i <= |files|
        invariant forall k :: 0 <= k < i ==> files[k].None?
        invariant vars == old(vars)
      {
        if files[i].Some? {
          assert FirstExisting(files[i..]) == Some(0);
          FirstExistingSkips(files, i);
          r := LoadEnv(files[i]);
          return;
        }
        i := i + 1;
      }
    }
  }

  lemma {:induction false} FirstExistingSkips(files: seq<Option<string>>, i: nat)
    requires i < |files| && files[i].Some? && forall k :: 0 <= k < i ==> files[k].None?
    ensures FirstExisting(files) == Some(i)
  {
    if i > 0 {
      FirstExistingSkips(files[1..], i - 1);
    }
  }
}
