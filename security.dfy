/**
 * The request-input helpers of `security.php`: `sanitizeInput` for text,
 * `validateInput` for the character-class types, the `getParam` family,
 * `verifyPassword`, and the parameter type string `executePrepared` builds.
 */
module Security {
  import opened Wrappers
  import opened PhpText

  /** A request parameter as PHP delivers it: a string, or an array of keyed parameters. */
  datatype Param = Scalar(s: string) | Array(entries: seq<Entry>)

  datatype Entry = Entry(key: string, value: Param)

  /** `sanitizeInput($s, 'string')` on a string: every NUL byte removed, then trimmed. */
  function SanitizeString(s: string): (r: string)
    ensures '\0' !in r
    ensures r == [] || (!IsTrimChar(r[0]) && !IsTrimChar(r[|r| - 1]))
    ensures exists i, j :: 0 <= i <= j <= |RemoveChar(s, '\0')| && r == RemoveChar(s, '\0')[i..j]
                           && (forall k :: 0 <= k < i ==> IsTrimChar(RemoveChar(s, '\0')[k]))
                           && (forall k :: j <= k < |RemoveChar(s, '\0')| ==> IsTrimChar(RemoveChar(s, '\0')[k]))
  {
    var r := Trim(RemoveChar(s, '\0'));
    TrimIsSlice(RemoveChar(s, '\0'));
    assert forall c :: c in r ==> c in RemoveChar(s, '\0');
    r
  }

  /** Sanitising twice is sanitising once. */
  lemma SanitizeIdempotent(s: string)
    ensures SanitizeString(SanitizeString(s)) == SanitizeString(s)
  {
    var t := SanitizeString(s);
    assert RemoveChar(t, '\0') == t;
    TrimmedIsFixed(t);
  }

  /**
   * `sanitizeInput($data, 'string')`: a string is sanitised, an array is
   * sanitised element by element under the same keys.
   */
  function Sanitize(p: Param): (r: Param)
    ensures r.Scalar? <==> p.Scalar?
    ensures p.Scalar? ==> r == Scalar(SanitizeString(p.s))
    ensures p.Array? ==> |r.entries| == |p.entries|
                         && forall k :: 0 <= k < |p.entries| ==> r.entries[k].key == p.entries[k].key
  {
    match p
    case Scalar(s) => Scalar(SanitizeString(s))
    case Array(entries) => Array(SanitizeEntries(entries))
  }

  function SanitizeEntries(entries: seq<Entry>): (r: seq<Entry>)
    ensures |r| == |entries|
    ensures forall k :: 0 <= k < |entries| ==> r[k].key == entries[k].key
  {
    if entries == [] then []
    else [Entry(entries[0].key, Sanitize(entries[0].value))] + SanitizeEntries(entries[1..])
  }

  /** A sanitised array holds the sanitised value of each original element at the same position. */
  lemma {:induction false} SanitizeEntriesPointwise(entries: seq<Entry>, k: nat)
    requires k < |entries|
    ensures SanitizeEntries(entries)[k] == Entry(entries[k].key, Sanitize(entries[k].value))
  {
    if k > 0 {
      SanitizeEntriesPointwise(entries[1..], k - 1);
    }
  }

  /**
   * `getParam`, `postParam` and `requestParam` on their superglobal `source`:
   * the default (`None` standing for PHP null) when the key is not set,
   * otherwise the sanitised value.
   */
  function FetchParam(source: map<string, Param>, key: string, default: Option<Param>): (r: Option<Param>)
    ensures key !in source ==> r == default
    ensures key in source ==> r == Some(Sanitize(source[key]))
  {
    if key in source then Some(Sanitize(source[key])) else default
  }

  /** A text parameter read with a '' default, as the endpoints read theirs. */
  function TextParam(source: map<string, string>, key: string): (r: string)
    ensures key !in source ==> r == ""
    ensures key in source ==> r == SanitizeString(source[key])
    ensures '\0' !in r
  {
    var fetched := FetchParam(map k | k in source :: Scalar(source[k]), key, Some(Scalar("")));
    fetched.value.s
  }

  predicate IsAlpha(c: char)
  {
    'a' <= c <= 'z' || 'A' <= c <= 'Z'
  }

  predicate IsAlnum(c: char)
  {
    IsAlpha(c) || '0' <= c <= '9'
  }

  predicate IsUsernameChar(c: char)
  {
    IsAlnum(c) || c == '_' || c == '-'
  }

  datatype CharClass = Alpha | Alphanumeric | Username

  predicate InClass(cls: CharClass, c: char)
  {
    match cls
    case Alpha => IsAlpha(c)
    case Alphanumeric => IsAlnum(c)
    case Username => IsUsernameChar(c)
  }

  /**
   * The evidently intended check: the whole input, and nothing else, matches
   * `^[class]+$` (for 'username', `^[class]{3,32}$`).
   */
  function Validate(cls: CharClass, s: string): (r: bool)
    ensures r ==> '\n' !in s && s != []
    ensures cls == Alpha ==> (r <==> |s| >= 1 && forall k :: 0 <= k < |s| ==> IsAlpha(s[k]))
    ensures cls == Alphanumeric ==> (r <==> |s| >= 1 && forall k :: 0 <= k < |s| ==> IsAlnum(s[k]))
    ensures cls == Username ==> (r <==> 3 <= |s| <= 32 && forall k :: 0 <= k < |s| ==> IsUsernameChar(s[k]))
  {
    && (if cls == Username then 3 <= |s| <= 32 else |s| >= 1)
    && forall k :: 0 <= k < |s| ==> InClass(cls, s[k])
  }

  /**
   * `validateInput` for 'alpha', 'alphanumeric' and 'username' as written:
   * the pattern ends in `$` without the D modifier, and PCRE's `$` also
   * matches just before a final "\n", so one trailing newline is accepted.
   */
  predicate ValidateAsWritten(cls: CharClass, s: string)
  {
    Validate(cls, s) || (s != [] && s[|s| - 1] == '\n' && Validate(cls, s[..|s| - 1]))
  }

  /** As written, a valid name followed by a newline passes; the intended check refuses it. */
  lemma TrailingNewlineAccepted(cls: CharClass, s: string)
    requires Validate(cls, s)
    ensures ValidateAsWritten(cls, s + "\n")
    ensures !Validate(cls, s + "\n")
  {
    assert (s + "\n")[..|s|] == s;
    assert (s + "\n")[|s|] == '\n';
  }

  /** For input without a newline, the code as written and the intended check agree. */
  lemma ValidateAgreesWithoutNewline(cls: CharClass, s: string)
    requires '\n' !in s
    ensures ValidateAsWritten(cls, s) == Validate(cls, s)
  {
  }

  /**
   * `verifyPassword`: a password equal to the stored value verbatim is
   * accepted (the plain-text migration shortcut); otherwise the answer is the
   * hash check `passwordVerify`.
   */
  function VerifyPassword(password: string, stored: string, passwordVerify: (string, string) -> bool): (r: bool)
    ensures password == stored ==> r
    ensures password != stored ==> r == passwordVerify(password, stored)
  {
    password == stored || passwordVerify(password, stored)
  }

  /** A stored plain-text password is accepted for itself whatever the hash check says. */
  lemma PlainTextAlwaysAccepted(password: string, passwordVerify: (string, string) -> bool)
    ensures VerifyPassword(password, password, passwordVerify)
    ensures VerifyPassword(password, password, (p, h) => false)
  {
  }

  /** A value passed to `executePrepared`. */
  datatype BindValue = IntValue(i: int) | FloatValue(f: real) | StringValue(s: string) | NullValue | BoolValue(b: bool)

  /** The type letter auto-detection gives one value: 'i', 'd', or 's' for everything else. */
  function TypeLetter(v: BindValue): (c: char)
    ensures c == 'i' <==> v.IntValue?
    ensures c == 'd' <==> v.FloatValue?
    ensures c in "ids"
  {
    if v.IntValue? then 'i' else if v.FloatValue? then 'd' else 's'
  }

  /**
   * The type string `executePrepared` hands to `bind_param`: `None` when there
   * are no parameters (nothing is bound); the caller's string unless it is
   * PHP-empty; otherwise one letter per parameter, built in a loop.
   */
  method PreparedTypes(params: seq<BindValue>, types: string) returns (r: Option<string>)
    ensures r.None? <==> params == []
    ensures params != [] && !IsEmptyString(types) ==> r == Some(types)
    ensures params != [] && IsEmptyString(types) ==>
      && |r.value| == |params|
      && forall k :: 0 <= k < |params| ==> r.value[k] == TypeLetter(params[k])
  {
    if params == [] {
      return None;
    }
    if !IsEmptyString(types) {
      return Some(types);
    }
    var detected := "";
    var i := 0;
    while i < |params|
      invariant 0 <= i <= |params|
      invariant |detected| == i
      invariant forall k :: 0 <= k < i ==> detected[k] == TypeLetter(params[k])
    {
      var letter;
      if params[i].IntValue? {
        letter := 'i';
      } else if params[i].FloatValue? {
        letter := 'd';
      } else {
        letter := 's';
      }
      detected := detected + [letter];
      i := i + 1;
    }
    return Some(detected);
  }
}
