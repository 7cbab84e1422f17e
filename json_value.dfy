/**
 * A request body after `json_decode($raw, true)`, and the three PHP operations
 * the endpoint applies to it: `empty(...)`, `... ?? default` and `is_array(...)`.
 * JSON objects keep their members in document order; numbers with a fraction
 * or an exponent are not part of this model.
 */
module JsonValue {
  import opened Wrappers
  import PhpText

  datatype Json =
    | JNull
    | JBool(b: bool)
    | JInt(i: int)
    | JStr(s: string)
    | JList(items: seq<Json>)
    | JObj(members: seq<Member>)

  datatype Member = Member(key: string, value: Json)

  /**
   * The value stored under `key`. PHP keeps the last of duplicated keys, so the
   * search runs from the end.
   */
  function Lookup(members: seq<Member>, key: string): Option<Json>
  {
    if members == [] then None
    else if members[|members| - 1].key == key then Some(members[|members| - 1].value)
    else Lookup(members[..|members| - 1], key)
  }

  /**
   * `Lookup` finds a member exactly when the key occurs, and what it finds is
   * the value of the last member with that key.
   */
  lemma {:induction false} LookupFindsLast(members: seq<Member>, key: string)
    ensures Lookup(members, key).Some? <==> exists k :: 0 <= k < |members| && members[k].key == key
    ensures Lookup(members, key).Some? ==>
      exists k :: 0 <= k < |members| && members[k] == Member(key, Lookup(members, key).value)
                  && forall j :: k < j < |members| ==> members[j].key != key
  {
    if members != [] && members[|members| - 1].key != key {
      var init := members[..|members| - 1];
      LookupFindsLast(init, key);
      assert forall k :: 0 <= k < |init| ==> init[k] == members[k];
    }
  }

  /** Looking past a last member with another key. */
  lemma LookupSkipsLast(members: seq<Member>, last: Member, key: string)
    requires last.key != key
    ensures Lookup(members + [last], key) == Lookup(members, key)
  {
    assert (members + [last])[..|members|] == members;
  }

  /**
   * `$v[$key]` as read inside `empty()` or `??`: only an array has string
   * offsets there; on any other value the offset is simply unset.
   */
  function Index(v: Json, key: string): (r: Option<Json>)
    ensures !v.JObj? ==> r == None
  {
    if v.JObj? then Lookup(v.members, key) else None
  }

  /** `$v[$key]` when `$v` may itself be unset. */
  function At(v: Option<Json>, key: string): Option<Json>
  {
    if v.Some? then Index(v.value, key) else None
  }

  /** PHP `empty($x)` where `None` stands for an unset variable or offset. */
  predicate Empty(v: Option<Json>)
  {
    match v
    case None => true
    case Some(JNull) => true
    case Some(JBool(b)) => !b
    case Some(JInt(i)) => i == 0
    case Some(JStr(s)) => PhpText.IsEmptyString(s)
    case Some(JList(items)) => items == []
    case Some(JObj(members)) => members == []
  }

  /** PHP `$x ?? $default`: the default replaces an unset or null value only. */
  function Coalesce(v: Option<Json>, default: Json): (r: Json)
    ensures v.None? || v == Some(JNull) ==> r == default
    ensures v.Some? && v.value != JNull ==> r == v.value
  {
    if v.None? || v.value == JNull then default else v.value
  }

  /**
   * The keys of the array `json_decode` builds from an object's members: each
   * key once, where it first occurs (a repeated key overwrites the value in
   * place and does not move).
   */
  function Keys(members: seq<Member>): (r: seq<string>)
    ensures |r| <= |members|
    ensures forall i, j :: 0 <= i < j < |r| ==> r[i] != r[j]
  {
    if members == [] then []
    else
      var init := Keys(members[..|members| - 1]);
      var last := members[|members| - 1].key;
      if last in init then init else init + [last]
  }

  /** The value stored under a key the array holds. */
  function ValueOf(members: seq<Member>, key: string): Json
  {
    match Lookup(members, key)
    case Some(value) => value
    case None => JNull
  }

  /**
   * The values `foreach` visits when `$v` is a non-empty array: the items of a
   * list; for an object one value per distinct key, in the order of `Keys`.
   * Nothing otherwise.
   */
  function Elements(v: Option<Json>): (r: seq<Json>)
    ensures Empty(v) ==> r == []
    ensures v.Some? && v.value.JList? ==> r == v.value.items
    ensures v.Some? && v.value.JObj? ==> |r| == |Keys(v.value.members)|
  {
    match v
    case Some(JList(items)) => items
    case Some(JObj(members)) =>
      var keys := Keys(members);
      seq(|keys|, k requires 0 <= k < |keys| => ValueOf(members, keys[k]))
    case _ => []
  }

  /** The keys of an object are exactly the keys its members use. */
  lemma {:induction false} KeysCover(members: seq<Member>, key: string)
    ensures key in Keys(members) <==> exists k :: 0 <= k < |members| && members[k].key == key
  {
    if members != [] {
      var init := members[..|members| - 1];
      KeysCover(init, key);
      assert forall k :: 0 <= k < |init| ==> init[k] == members[k];
    }
  }

  /**
   * Iterating an object visits, for each distinct key, the value that reading
   * that key gives: the last one the document holds for it.
   */
  lemma ElementsOfObject(members: seq<Member>)
    ensures forall i :: 0 <= i < |Keys(members)| ==>
      Lookup(members, Keys(members)[i]) == Some(Elements(Some(JObj(members)))[i])
  {
    forall i | 0 <= i < |Keys(members)|
      ensures Lookup(members, Keys(members)[i]) == Some(Elements(Some(JObj(members)))[i])
    {
      KeysCover(members, Keys(members)[i]);
      LookupFindsLast(members, Keys(members)[i]);
    }
  }

  /** Without repeated keys, iterating an object visits its members' values in document order. */
  lemma {:induction false} ElementsWithoutRepeats(members: seq<Member>)
    requires forall i, j :: 0 <= i < j < |members| ==> members[i].key != members[j].key
    ensures Elements(Some(JObj(members))) == seq(|members|, k requires 0 <= k < |members| => members[k].value)
  {
    KeysInOrder(members);
    forall k | 0 <= k < |members|
      ensures Lookup(members, members[k].key) == Some(members[k].value)
    {
      LookupFindsLast(members, members[k].key);
    }
  }

  lemma {:induction false} KeysInOrder(members: seq<Member>)
    requires forall i, j :: 0 <= i < j < |members| ==> members[i].key != members[j].key
    ensures Keys(members) == seq(|members|, k requires 0 <= k < |members| => members[k].key)
  {
    if members != [] {
      var init := members[..|members| - 1];
      KeysInOrder(init);
      KeysCover(init, members[|members| - 1].key);
    }
  }

  /** A JSON array or object: both are PHP arrays once decoded. */
  predicate IsArray(v: Json)
  {
    v.JList? || v.JObj?
  }

  /** The integer a value binds to an integer column; `None` when the store rejects it. */
  function AsInt(v: Json): (r: Option<int>)
    ensures r.Some? <==> v.JInt?
  {
    if v.JInt? then Some(v.i) else None
  }

  /**
   * The text a scalar becomes when passed where PHP expects a string: an
   * integer its decimal digits, `true` "1" and `false` "". `None` for null and
   * arrays, which a `string` parameter refuses with a TypeError.
   */
  function AsText(v: Json): (r: Option<string>)
    ensures r.Some? <==> v.JStr? || v.JInt? || v.JBool?
    ensures v.JStr? ==> r == Some(v.s)
    ensures v.JBool? ==> r == Some(if v.b then "1" else "")
  {
    match v
    case JStr(s) => Some(s)
    case JInt(i) => Some(PhpText.Decimal(i))
    case JBool(b) => Some(if b then "1" else "")
    case _ => None
  }

  /**
   * The text a value becomes when bound to a text column of a statement.
   * There is no `string` parameter on that path: a scalar becomes its text
   * as with `AsText`, and an array becomes "Array" (PHP's array-to-string
   * conversion, which only warns). `None` for null, which such a column
   * refuses.
   */
  function AsBoundText(v: Json): (r: Option<string>)
    ensures r.Some? <==> !v.JNull?
    ensures AsText(v).Some? ==> r == AsText(v)
    ensures IsArray(v) ==> r == Some("Array")
  {
    match v
    case JNull => None
    case JList(_) => Some("Array")
    case JObj(_) => Some("Array")
    case _ => AsText(v)
  }

  /**
   * A value for a nullable text column: null is SQL NULL (`None`), anything
   * else binds as `AsBoundText` gives it, so the binding never fails.
   */
  function AsNullableText(v: Json): (r: Option<string>)
    ensures r.None? <==> v == JNull
    ensures r.Some? ==> Some(r.value) == AsBoundText(v)
  {
    if v == JNull then None else AsBoundText(v)
  }
}
