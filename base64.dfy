/**
 * PHP's `base64_decode($s, true)` over the RFC 4648 section 4 alphabet, and the
 * matching encoder. A byte is a `char` below 256.
 *
 * The strict decoder makes one pass over the input: it skips tab, newline,
 * carriage return and space, counts '=' characters, and fails on any other
 * character outside the alphabet or on data after a '='. After the pass it
 * fails when the last group holds a single character, or when there is
 * padding and it is longer than two or does not complete the last group.
 * Missing padding is accepted; unused low bits of the last group are ignored.
 */
module Base64 {
  import opened Wrappers

  predicate IsByteString(s: string)
  {
    forall k :: 0 <= k < |s| ==> s[k] as int < 256
  }

  /** The value of an alphabet character. */
  function SextetOf(c: char): (r: Option<int>)
    ensures r.Some? ==> 0 <= r.value < 64
    ensures r.Some? <==> ('A' <= c <= 'Z' || 'a' <= c <= 'z' || '0' <= c <= '9' || c == '+' || c == '/')
  {
    if 'A' <= c <= 'Z' then Some(c as int - 'A' as int)
    else if 'a' <= c <= 'z' then Some(c as int - 'a' as int + 26)
    else if '0' <= c <= '9' then Some(c as int - '0' as int + 52)
    else if c == '+' then Some(62)
    else if c == '/' then Some(63)
    else None
  }

  /** The alphabet character of a value: the inverse of `SextetOf`. */
  function SextetChar(v: int): (c: char)
    requires 0 <= v < 64
    ensures SextetOf(c) == Some(v)
  {
    if v < 26 then ('A' as int + v) as char
    else if v < 52 then ('a' as int + v - 26) as char
    else if v < 62 then ('0' as int + v - 52) as char
    else if v == 62 then '+'
    else '/'
  }

  /** The characters the strict decoder skips. */
  predicate IsSkipped(c: char)
  {
    c == ' ' || c == '\t' || c == '\n' || c == '\r'
  }

  predicate AreSextets(v: seq<int>)
  {
    forall k :: 0 <= k < |v| ==> 0 <= v[k] < 64
  }

  /**
   * The decoder's pass from a point where `padding` '=' characters have been
   * seen: the values of the remaining data characters and the final padding
   * count, or `None` on a stray character or on data after a '='.
   */
  function Scan(s: string, padding: nat): (r: Option<(seq<int>, nat)>)
    ensures r.Some? ==> AreSextets(r.value.0) && r.value.1 >= padding
    ensures r.Some? && padding > 0 ==> r.value.0 == []
  {
    if s == [] then Some(([], padding))
    else if s[0] == '=' then Scan(s[1..], padding + 1)
    else if IsSkipped(s[0]) then Scan(s[1..], padding)
    else if SextetOf(s[0]).None? || padding > 0 then None
    else
      match Scan(s[1..], padding)
      case None => None
      case Some(rest) => Some(([SextetOf(s[0]).value] + rest.0, rest.1))
  }

  // The three bytes a group of four values carries.
  function Byte0(v0: int, v1: int): char
    requires 0 <= v0 < 64 && 0 <= v1 < 64
  {
    (v0 * 4 + v1 / 16) as char
  }

  function Byte1(v1: int, v2: int): char
    requires 0 <= v1 < 64 && 0 <= v2 < 64
  {
    ((v1 % 16) * 16 + v2 / 4) as char
  }

  function Byte2(v2: int, v3: int): char
    requires 0 <= v2 < 64 && 0 <= v3 < 64
  {
    ((v2 % 4) * 64 + v3) as char
  }

  /** The bytes a run of values yields: three per full group, one fewer than the values in a short last group. */
  function Bytes(v: seq<int>): (r: string)
    requires AreSextets(v)
    ensures IsByteString(r)
    ensures |r| == |v| / 4 * 3 + (if |v| % 4 == 0 then 0 else |v| % 4 - 1)
  {
    if |v| >= 4 then [Byte0(v[0], v[1]), Byte1(v[1], v[2]), Byte2(v[2], v[3])] + Bytes(v[4..])
    else if |v| == 3 then [Byte0(v[0], v[1]), Byte1(v[1], v[2])]
    else if |v| == 2 then [Byte0(v[0], v[1])]
    else []
  }

  /** `base64_decode($s, true)`; `None` is PHP's `false`. */
  function Decode(s: string): (r: Option<string>)
    ensures r.Some? ==> IsByteString(r.value)
  {
    match Scan(s, 0)
    case None => None
    case Some(scanned) =>
      var (vals, padding) := scanned;
      if |vals| % 4 == 1 then None
      else if padding > 0 && (padding > 2 || (|vals| + padding) % 4 != 0) then None
      else Some(Bytes(vals))
  }

  /** The values that encode a byte string, three bytes to four values; a short tail gives two or three. */
  function EncodeSextets(b: string): (r: seq<int>)
    requires IsByteString(b)
    ensures AreSextets(r)
    ensures |r| == |b| / 3 * 4 + (if |b| % 3 == 0 then 0 else |b| % 3 + 1)
  {
    if |b| >= 3 then
      var b0, b1, b2 := b[0] as int, b[1] as int, b[2] as int;
      [b0 / 4, (b0 % 4) * 16 + b1 / 16, (b1 % 16) * 4 + b2 / 64, b2 % 64] + EncodeSextets(b[3..])
    else if |b| == 2 then
      var b0, b1 := b[0] as int, b[1] as int;
      [b0 / 4, (b0 % 4) * 16 + b1 / 16, (b1 % 16) * 4]
    else if |b| == 1 then
      var b0 := b[0] as int;
      [b0 / 4, (b0 % 4) * 16]
    else []
  }

  function Chars(v: seq<int>): (r: string)
    requires AreSextets(v)
    ensures |r| == |v|
    ensures forall k :: 0 <= k < |v| ==> r[k] == SextetChar(v[k])
  {
    if v == [] then [] else [SextetChar(v[0])] + Chars(v[1..])
  }

  function Padding(n: nat): (r: string)
    ensures |r| == n && forall k :: 0 <= k < n ==> r[k] == '='
  {
    if n == 0 then [] else "=" + Padding(n - 1)
  }

  /** `base64_encode`: the alphabet characters, then '=' up to a multiple of four. */
  function Encode(b: string): (r: string)
    requires IsByteString(b)
    ensures |r| % 4 == 0 && |r| == (|b| + 2) / 3 * 4
  {
    Chars(EncodeSextets(b)) + Padding(if |b| % 3 == 0 then 0 else 3 - |b| % 3)
  }

  lemma {:induction false} ScanPadding(n: nat, padding: nat)
    ensures Scan(Padding(n), padding) == Some(([], padding + n))
  {
    if n > 0 {
      ScanPadding(n - 1, padding + 1);
      assert Padding(n)[1..] == Padding(n - 1);
    }
  }

  lemma {:induction false} ScanEncoded(v: seq<int>, n: nat)
    requires AreSextets(v)
    ensures Scan(Chars(v) + Padding(n), 0) == Some((v, n))
  {
    if v == [] {
      assert Chars(v) + Padding(n) == Padding(n);
      ScanPadding(n, 0);
    } else {
      var s := Chars(v) + Padding(n);
      assert s[0] == SextetChar(v[0]);
      assert s[1..] == Chars(v[1..]) + Padding(n);
      ScanEncoded(v[1..], n);
      assert [v[0]] + v[1..] == v;
    }
  }

  lemma {:induction false} BytesOfEncoded(b: string)
    requires IsByteString(b)
    ensures Bytes(EncodeSextets(b)) == b
  {
    var v := EncodeSextets(b);
    if |b| >= 3 {
      var b0, b1, b2 := b[0] as int, b[1] as int, b[2] as int;
      GroupRoundTrip(b0, b1, b2);
      BytesOfEncoded(b[3..]);
      assert v[4..] == EncodeSextets(b[3..]);
      assert b == [b[0], b[1], b[2]] + b[3..];
    } else if |b| == 2 {
      GroupRoundTrip(b[0] as int, b[1] as int, 0);
    } else if |b| == 1 {
      GroupRoundTrip(b[0] as int, 0, 0);
    }
  }

  /** One group: the bytes read back from the values of three bytes are those bytes. */
  lemma GroupRoundTrip(b0: int, b1: int, b2: int)
    requires 0 <= b0 < 256 && 0 <= b1 < 256 && 0 <= b2 < 256
    ensures Byte0(b0 / 4, (b0 % 4) * 16 + b1 / 16) == b0 as char
    ensures Byte1((b0 % 4) * 16 + b1 / 16, (b1 % 16) * 4 + b2 / 64) == b1 as char
    ensures Byte2((b1 % 16) * 4 + b2 / 64, b2 % 64) == b2 as char
    ensures Byte1((b0 % 4) * 16 + b1 / 16, (b1 % 16) * 4) == b1 as char
  {
    var v1 := (b0 % 4) * 16 + b1 / 16;
    var v2 := (b1 % 16) * 4 + b2 / 64;
    assert v1 / 16 == b0 % 4 && v1 % 16 == b1 / 16;
    assert v2 / 4 == b1 % 16 && v2 % 4 == b2 / 64;
    assert ((b1 % 16) * 4) / 4 == b1 % 16;
  }

  /** The strict decoder reads back exactly what the encoder wrote. */
  lemma EncodeDecode(b: string)
    requires IsByteString(b)
    ensures Decode(Encode(b)) == Some(b)
  {
    var v := EncodeSextets(b);
    var n := if |b| % 3 == 0 then 0 else 3 - |b| % 3;
    EncodedGroups(|b|, |v|, n);
    DecodeOfValues(v, n);
    assert Decode(Chars(v) + Padding(n)) == Some(Bytes(v));
    BytesOfEncoded(b);
    assert Encode(b) == Chars(v) + Padding(n);
  }

  /** The encoder's value count and padding always make whole, well-formed groups. */
  lemma EncodedGroups(len: nat, values: nat, n: nat)
    requires values == len / 3 * 4 + (if len % 3 == 0 then 0 else len % 3 + 1)
    requires n == if len % 3 == 0 then 0 else 3 - len % 3
    ensures values % 4 != 1
    ensures n == 0 || (n <= 2 && (values + n) % 4 == 0)
  {
    var q := len / 3;
    assert values == q * 4 + (if len % 3 == 0 then 0 else len % 3 + 1);
    assert values % 4 == (if len % 3 == 0 then 0 else len % 3 + 1);
  }

  /** A character outside the alphabet, '=' and the skipped whitespace anywhere makes the decoder fail. */
  lemma {:induction false} StrayCharRejected(s: string, k: nat, padding: nat)
    requires k < |s| && s[k] != '=' && !IsSkipped(s[k]) && SextetOf(s[k]).None?
    ensures Scan(s, padding) == None
    ensures padding == 0 ==> Decode(s) == None
  {
    if k > 0 && s[0] != '=' && !IsSkipped(s[0]) && SextetOf(s[0]).Some? && padding == 0 {
      StrayCharRejected(s[1..], k - 1, padding);
    } else if k > 0 && (s[0] == '=' || IsSkipped(s[0])) {
      StrayCharRejected(s[1..], k - 1, if s[0] == '=' then padding + 1 else padding);
    }
  }

  /** Data after a '=' makes the decoder fail. */
  lemma {:induction false} DataAfterPaddingRejected(s: string, i: nat, j: nat, padding: nat)
    requires i < j < |s| && s[i] == '=' && SextetOf(s[j]).Some?
    ensures Scan(s, padding) == None
    ensures padding == 0 ==> Decode(s) == None
  {
    if i > 0 {
      if s[0] == '=' || IsSkipped(s[0]) {
        DataAfterPaddingRejected(s[1..], i - 1, j - 1, if s[0] == '=' then padding + 1 else padding);
      } else if SextetOf(s[0]).Some? && padding == 0 {
        DataAfterPaddingRejected(s[1..], i - 1, j - 1, padding);
      }
    } else {
      DataAfterPadding(s[1..], j - 1, padding + 1);
    }
  }

  lemma {:induction false} DataAfterPadding(s: string, j: nat, padding: nat)
    requires padding > 0 && j < |s| && SextetOf(s[j]).Some?
    ensures Scan(s, padding) == None
  {
    if j > 0 && (s[0] == '=' || IsSkipped(s[0])) {
      DataAfterPadding(s[1..], j - 1, if s[0] == '=' then padding + 1 else padding);
    }
  }

  /**
   * Every input made of alphabet characters followed by '=' padding: a lone
   * character in the last group fails, padding fails when it is longer than
   * two or does not complete the last group, and anything else (missing
   * padding included) decodes to the bytes of the values.
   */
  lemma DecodeOfValues(v: seq<int>, n: nat)
    requires AreSextets(v)
    ensures |v| % 4 == 1 ==> Decode(Chars(v) + Padding(n)) == None
    ensures n > 0 && (n > 2 || (|v| + n) % 4 != 0) ==> Decode(Chars(v) + Padding(n)) == None
    ensures |v| % 4 != 1 && (n == 0 || (n <= 2 && (|v| + n) % 4 == 0)) ==> Decode(Chars(v) + Padding(n)) == Some(Bytes(v))
  {
    ScanEncoded(v, n);
  }

  /** The input without the characters the decoder skips. */
  function Unspaced(s: string): (r: string)
    ensures |r| <= |s|
    ensures forall k :: 0 <= k < |r| ==> !IsSkipped(r[k])
  {
    if s == [] then []
    else if IsSkipped(s[0]) then Unspaced(s[1..])
    else [s[0]] + Unspaced(s[1..])
  }

  lemma {:induction false} ScanIgnoresSkipped(s: string, padding: nat)
    ensures Scan(s, padding) == Scan(Unspaced(s), padding)
  {
    if s != [] {
      ScanIgnoresSkipped(s[1..], padding + 1);
      ScanIgnoresSkipped(s[1..], padding);
      if !IsSkipped(s[0]) {
        var u := Unspaced(s);
        assert u[0] == s[0] && u[1..] == Unspaced(s[1..]);
      }
    }
  }

  /** Tabs, newlines, carriage returns and spaces anywhere in the input change nothing. */
  lemma DecodeIgnoresSkipped(s: string)
    ensures Decode(s) == Decode(Unspaced(s))
  {
    ScanIgnoresSkipped(s, 0);
  }
}
