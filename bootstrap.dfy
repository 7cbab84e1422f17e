/**
 * The pure parts of `public/bootstrap.php`: `formatTime`, the class autoloader's
 * class-to-file mapping, and the choice of configuration file.
 */
module Bootstrap {
  import opened Wrappers
  import opened PhpText

  /** PHP `$a % $b` for a positive divisor: the remainder takes the sign of the dividend. */
  function TruncMod(a: int, b: int): (r: int)
    requires b > 0
    ensures a >= 0 ==> 0 <= r < b && r == a % b
    ensures a < 0 ==> -b < r <= 0 && r == -((-a) % b)
  {
    if a >= 0 then a % b else -((-a) % b)
  }

  /** The whole hours and the leftover whole minutes `formatTime` prints. */
  function TimeParts(seconds: int): (r: (int, int))
    ensures seconds >= 0 ==> r.0 >= 0 && 0 <= r.1 < 60
    ensures seconds >= 0 ==> r.0 * 3600 + r.1 * 60 <= seconds < r.0 * 3600 + r.1 * 60 + 60
  {
    // floor() of the float quotient; Dafny's `/` floors for a positive divisor
    (seconds / 3600, TruncMod(seconds, 3600) / 60)
  }

  /** `formatTime`: "<h>h <m>m" when there is at least one hour, "<m>m" otherwise. */
  function FormatTime(seconds: int): (r: string)
    ensures TimeParts(seconds).0 > 0 ==> r == Decimal(TimeParts(seconds).0) + "h " + Decimal(TimeParts(seconds).1) + "m"
    ensures TimeParts(seconds).0 <= 0 ==> r == Decimal(TimeParts(seconds).1) + "m"
    ensures 0 <= seconds < 3600 ==> r == Digits(seconds / 60) + "m"
  {
    var (hours, minutes) := TimeParts(seconds);
    if hours > 0 then Decimal(hours) + "h " + Decimal(minutes) + "m"
    else Decimal(minutes) + "m"
  }

  predicate AllDigits(s: string)
  {
    s != [] && forall k :: 0 <= k < |s| ==> '0' <= s[k] <= '9'
  }

  /** Reads a duration printed by `formatTime` back as a number of whole minutes. */
  function ParseTime(t: string): Option<int>
  {
    if t == [] || t[|t| - 1] != 'm' then None
    else
      var pieces := Split(t[..|t| - 1], ' ');
      if |pieces| == 1 && AllDigits(pieces[0]) then Some(DigitsValue(pieces[0]))
      else if |pieces| == 2 && |pieces[0]| >= 2 && pieces[0][|pieces[0]| - 1] == 'h'
              && AllDigits(pieces[0][..|pieces[0]| - 1]) && AllDigits(pieces[1])
      then Some(DigitsValue(pieces[0][..|pieces[0]| - 1]) * 60 + DigitsValue(pieces[1]))
      else None
  }

  /** Whole minutes of a non-negative duration. */
  lemma MinutesOfSeconds(seconds: int)
    requires seconds >= 0
    ensures TimeParts(seconds).0 * 60 + TimeParts(seconds).1 == seconds / 60
  {
    var h, m := TimeParts(seconds).0, TimeParts(seconds).1;
    var rest := seconds % 3600;
    assert seconds == h * 3600 + rest;
    assert rest == m * 60 + rest % 60;
    assert seconds == (h * 60 + m) * 60 + rest % 60;
  }

  /** `formatTime` loses only the leftover seconds: reading its text back gives the whole minutes. */
  lemma {:induction false} FormatTimeRoundTrip(seconds: int)
    requires seconds >= 0
    ensures ParseTime(FormatTime(seconds)) == Some(seconds / 60)
  {
    var (h, m) := TimeParts(seconds);
    MinutesOfSeconds(seconds);
    if h > 0 {
      ParseHoursMinutes(h, m);
    } else {
      ParseMinutes(m);
    }
  }

  /** A text with hours reads back as the hours times sixty plus the minutes. */
  lemma ParseHoursMinutes(h: nat, m: nat)
    ensures ParseTime(Digits(h) + "h " + Digits(m) + "m") == Some(h * 60 + m)
  {
    var hp := Digits(h) + "h";
    var body := hp + [' '] + Digits(m);
    var t := body + ['m'];
    HoursText(Digits(h), Digits(m));
    assert t[..|t| - 1] == body;
    HoursMinutesPieces(h, m);
    assert hp[..|hp| - 1] == Digits(h);
    ParseTwoPieces(t, hp, Digits(m));
    DigitsRoundTrip(h);
    DigitsRoundTrip(m);
  }

  /** A text whose pieces are "<digits>h" and "<digits>" reads back as hours and minutes. */
  lemma ParseTwoPieces(t: string, hp: string, mp: string)
    requires t != [] && t[|t| - 1] == 'm' && Split(t[..|t| - 1], ' ') == [hp, mp]
    requires |hp| >= 2 && hp[|hp| - 1] == 'h' && AllDigits(hp[..|hp| - 1]) && AllDigits(mp)
    ensures ParseTime(t) == Some(DigitsValue(hp[..|hp| - 1]) * 60 + DigitsValue(mp))
  {
  }

  /** The text "<a>h <b>m" is the hours piece, a space, the minutes and the unit. */
  lemma HoursText(a: string, b: string)
    ensures a + "h " + b + "m" == a + "h" + [' '] + b + ['m']
  {
    assert "h " == "h" + [' '];
  }

  /** The space splits a text with hours into the hours piece and the minutes. */
  lemma HoursMinutesPieces(h: nat, m: nat)
    ensures Split(Digits(h) + "h" + [' '] + Digits(m), ' ') == [Digits(h) + "h", Digits(m)]
  {
    var hp := Digits(h) + "h";
    assert ' ' !in hp;
    SplitNoSeparator(Digits(m), ' ');
    SplitAfterPiece(hp, ' ', Digits(m));
  }

  /** A text of minutes alone reads back as those minutes. */
  lemma ParseMinutes(m: nat)
    ensures ParseTime(Digits(m) + "m") == Some(m)
  {
    var t := Digits(m) + "m";
    DigitsRoundTrip(m);
    SplitNoSeparator(Digits(m), ' ');
    assert t[..|t| - 1] == Digits(m);
  }

  /** The namespace prefix the autoloader serves. */
  const ClassPrefix := "Chronos\\"

  /**
   * The file the autoloader maps a class name to: `None` outside the
   * `Chronos\` namespace; otherwise the rest of the name under `src/`, with
   * namespace separators turned into directory separators, plus ".php".
   */
  function ClassFile(dir: string, className: string): (r: Option<string>)
    ensures r.None? <==> !StartsWith(className, ClassPrefix)
    ensures r.Some? ==>
      var rel := className[|ClassPrefix|..];
      && r.value == dir + "/../src/" + ReplaceChar(rel, '\\', '/') + ".php"
      && '\\' !in r.value[|dir| + 8..|r.value| - 4]
  {
    if StartsWith(className, ClassPrefix) then
      Some(dir + "/../src/" + ReplaceChar(className[|ClassPrefix|..], '\\', '/') + ".php")
    else None
  }

  /** The file the autoloader requires: the mapped file, and only when it exists. */
  function Autoload(dir: string, className: string, existing: set<string>): (r: Option<string>)
    ensures r.Some? <==> ClassFile(dir, className).Some? && ClassFile(dir, className).value in existing
    ensures r.Some? ==> r == ClassFile(dir, className)
  {
    var f := ClassFile(dir, className);
    if f.Some? && f.value in existing then f else None
  }

  lemma ReplaceCharInjective(a: string, b: string, from: char, to: char)
    requires to !in a && to !in b
    requires ReplaceChar(a, from, to) == ReplaceChar(b, from, to)
    ensures a == b
  {
    assert |a| == |b|;
    forall k | 0 <= k < |a|
      ensures a[k] == b[k]
    {
      assert a[k] != to && b[k] != to;
    }
  }

  /** Two class names (which never contain '/') that map to the same file are the same class. */
  lemma ClassFileInjective(dir: string, a: string, b: string)
    requires '/' !in a && '/' !in b
    requires ClassFile(dir, a).Some? && ClassFile(dir, a) == ClassFile(dir, b)
    ensures a == b
  {
    var n := |ClassPrefix|;
    var fa, fb := ClassFile(dir, a).value, ClassFile(dir, b).value;
    var ra, rb := ReplaceChar(a[n..], '\\', '/'), ReplaceChar(b[n..], '\\', '/');
    var head := dir + "/../src/";
    assert fa == head + ra + ".php" && fb == head + rb + ".php";
    assert |ra| == |rb|;
    assert ra == fa[|head|..|head| + |ra|];
    assert rb == fb[|head|..|head| + |rb|];
    assert forall k :: 0 <= k < |a[n..]| ==> a[n..][k] == a[n + k];
    assert forall k :: 0 <= k < |b[n..]| ==> b[n..][k] == b[n + k];
    ReplaceCharInjective(a[n..], b[n..], '\\', '/');
    assert a == a[..n] + a[n..] && b == b[..n] + b[n..];
  }

  /** The configuration file: `config.php` when it exists, else the sample, else none (the script dies). */
  function ConfigFile(dir: string, existing: set<string>): (r: Option<string>)
    ensures dir + "/../config/config.php" in existing ==> r == Some(dir + "/../config/config.php")
    ensures dir + "/../config/config.php" !in existing ==>
      (r.Some? <==> dir + "/../config/config.sample.php" in existing)
    ensures r.Some? ==> r.value in existing
  {
    var primary := dir + "/../config/config.php";
    var sample := dir + "/../config/config.sample.php";
    if primary in existing then Some(primary)
    else if sample in existing then Some(sample)
    else None
  }
}
