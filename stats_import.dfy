/**
 * The legacy upload endpoint `stats_import.php`: it reads the `data` and
 * `serverid` form fields, restores the '+' characters form encoding turned
 * into spaces, base64-decodes the payload, writes a debug record, and hands
 * the decoded bytes to the importer once the server id is known.
 */
module StatsImport {
  import opened Wrappers
  import opened PhpText
  import opened Base64
  import opened Security

  /** How many bytes of each payload the debug record shows. */
  const DebugLimit := 2000

  /** What the endpoint does with a request. */
  datatype ImportResult =
    | NoDataSent
    | InvalidServerId(serverId: string)
    | Imported(payload: string)

  /** The debug record: both lengths and a printable snippet of both payloads. */
  datatype DebugRecord = DebugRecord(serverId: string, rawLength: nat, decodedLength: nat, rawSnippet: string, decodedSnippet: string)

  /** The strict decoding of the field with spaces turned into '+'; '' when it is not valid base64. */
  function DecodeOrEmpty(data: string): (r: string)
    ensures Decode(ReplaceChar(data, ' ', '+')).None? ==> r == ""
    ensures Decode(ReplaceChar(data, ' ', '+')).Some? ==> r == Decode(ReplaceChar(data, ' ', '+')).value
    ensures IsByteString(r)
  {
    match Decode(ReplaceChar(data, ' ', '+'))
    case None => ""
    case Some(bytes) => bytes
  }

  predicate IsPrintable(c: char)
  {
    ' ' <= c <= '~'
  }

  /** The first `DebugLimit` bytes with every byte outside 0x20..0x7E shown as '.'. */
  function Snippet(x: string): (r: string)
    ensures |r| == if |x| < DebugLimit then |x| else DebugLimit
    ensures forall k :: 0 <= k < |r| ==> r[k] == (if IsPrintable(x[k]) then x[k] else '.')
    ensures forall k :: 0 <= k < |r| ==> IsPrintable(r[k])
  {
    var n := if |x| < DebugLimit then |x| else DebugLimit;
    seq(n, k requires 0 <= k < n => if IsPrintable(x[k]) then x[k] else '.')
  }

  /**
   * The script from reading its fields to calling the importer. `post` holds
   * the form fields, `registered` the server ids of the `servers` table. The
   * importer's answer is not part of this model: `Imported` carries what it
   * is given.
   */
  method Run(post: map<string, string>, registered: set<string>) returns (r: ImportResult, log: Option<DebugRecord>)
    ensures r == NoDataSent <==> TextParam(post, "data") == "" || TextParam(post, "serverid") == ""
    ensures r == NoDataSent <==> log.None?
    ensures r.InvalidServerId? <==> r != NoDataSent && TextParam(post, "serverid") !in registered
    ensures r.InvalidServerId? ==> r.serverId == TextParam(post, "serverid")
    ensures r.Imported? ==> r.payload == DecodeOrEmpty(TextParam(post, "data"))
    ensures log.Some? ==>
      var raw := TextParam(post, "data");
      var decoded := DecodeOrEmpty(raw);
      log.value == DebugRecord(TextParam(post, "serverid"), |raw|, |decoded|, Snippet(raw), Snippet(decoded))
  {
    var data := TextParam(post, "data");
    var serverId := TextParam(post, "serverid");
    if data == "" || serverId == "" {
      return NoDataSent, None;
    }
    var raw := data;
    var decoded := DecodeOrEmpty(raw);
    log := Some(DebugRecord(serverId, |raw|, |decoded|, Snippet(raw), Snippet(decoded)));
    data := decoded;
    if serverId !in registered {
      return InvalidServerId(serverId), log;
    }
    r := Imported(data);
  }

  /**
   * The payload as the script derives it from the raw field: `postParam`
   * trims the field, and only then are spaces turned back into '+'.
   */
  function PayloadAsWritten(field: string): string
  {
    ReplaceChar(SanitizeString(field), ' ', '+')
  }

  /**
   * The evidently intended derivation: restore the '+' characters first, so
   * that trimming cannot drop one that arrived as a space at either end.
   */
  function Payload(field: string): (r: string)
    ensures ' ' !in r && '\0' !in r
  {
    var t := ReplaceChar(RemoveChar(field, '\0'), ' ', '+');
    TrimIsSlice(t);
    assert forall c :: c in Trim(t) ==> c in t;
    Trim(t)
  }

  /** The field a base64 text arrives as when its '+' characters were sent unescaped. */
  function Mangled(text: string): string
  {
    ReplaceChar(text, '+', ' ')
  }

  /** The intended derivation recovers every encoded payload, whatever its '+' characters became. */
  lemma PayloadRecoversMangled(b: string)
    requires IsByteString(b)
    ensures Decode(Payload(Mangled(Encode(b)))) == Some(b)
  {
    var e := Encode(b);
    EncodedAlphabet(b);
    assert ReplaceChar(Mangled(e), ' ', '+') == e;
    assert RemoveChar(Mangled(e), '\0') == Mangled(e) by {
      assert '\0' !in Mangled(e);
    }
    if e != [] {
      assert !IsTrimChar(e[0]) && !IsTrimChar(e[|e| - 1]);
    }
    TrimmedIsFixed(e);
    EncodeDecode(b);
  }

  /** Every character of an encoding is an alphabet character or '='. */
  lemma EncodedAlphabet(b: string)
    requires IsByteString(b)
    ensures forall k :: 0 <= k < |Encode(b)| ==> Encode(b)[k] == '=' || SextetOf(Encode(b)[k]).Some?
  {
    var v := EncodeSextets(b);
    var n := if |b| % 3 == 0 then 0 else 3 - |b| % 3;
    assert Encode(b) == Chars(v) + Padding(n);
  }

  /** The base64 text of the bytes 0, 0, 62 ends in '+'. */
  lemma EncodedEndsInPlus()
    ensures Encode([0 as char, 0 as char, 62 as char]) == "AAA+"
  {
    var b := [0 as char, 0 as char, 62 as char];
    assert EncodeSextets(b[3..]) == [];
    assert EncodeSextets(b) == [0, 0, 0, 62];
    assert Chars([0, 0, 0, 62]) == "AAA+";
  }

  /** The field "AAA " (that text with its '+' sent unescaped) becomes "AAA" as written. */
  lemma TrailingSpaceTrimmed()
    ensures PayloadAsWritten("AAA ") == "AAA"
  {
    assert RemoveChar("AAA ", '\0') == "AAA ";
    assert TrimLeft("AAA ") == "AAA ";
    assert TrimRight("AAA ") == "AAA";
    assert ReplaceChar("AAA", ' ', '+') == "AAA";
  }

  /** The strict decoder reads "AAA", which has no padding, as two bytes. */
  lemma ShortGroupDecoded()
    ensures Decode("AAA") == Some([0 as char, 0 as char])
  {
    assert Chars([0, 0, 0]) + Padding(0) == "AAA";
    ScanEncoded([0, 0, 0], 0);
    assert Bytes([0, 0, 0]) == [0 as char, 0 as char];
  }

  /**
   * As written, the three bytes 0, 0, 62 (base64 "AAA+", arriving as
   * "AAA ") lose their last byte: the trailing space is trimmed away and the
   * strict decoder reads "AAA" as two bytes; the intended derivation keeps all three.
   */
  lemma TrailingPlusLost()
    ensures Mangled(Encode([0 as char, 0 as char, 62 as char])) == "AAA "
    ensures Decode(PayloadAsWritten("AAA ")) == Some([0 as char, 0 as char])
    ensures Decode(Payload("AAA ")) == Some([0 as char, 0 as char, 62 as char])
  {
    EncodedEndsInPlus();
    assert Mangled("AAA+") == "AAA ";
    TrailingSpaceTrimmed();
    ShortGroupDecoded();
    PayloadRecoversMangled([0 as char, 0 as char, 62 as char]);
  }
}
