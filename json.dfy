/**
 * The value tree `JSON.parse` produces, with the member lookup, truthiness and
 * property assignment the core applies to it. Objects keep their members in
 * order; `JSON.parse` never yields two members with the same key.
 */
module Json {
  import opened Common

  datatype Json =
    | JNull
    | JBool(b: bool)
    | JNum(n: int)
    | JStr(s: string)
    | JArr(items: seq<Json>)
    | JObj(members: seq<Member>)

  datatype Member = Member(key: string, value: Json)

  predicate Has(ms: seq<Member>, key: string)
  {
    exists i :: 0 <= i < |ms| && ms[i].key == key
  }

  /** `obj[key]`: the value of the member named `key`, or `None` for `undefined`. */
  function Get(ms: seq<Member>, key: string): (r: Option<Json>)
    ensures r.Some? <==> Has(ms, key)
    ensures r.Some? ==> Member(key, r.value) in ms
  {
    if |ms| == 0 then None
    else if ms[0].key == key then Some(ms[0].value)
    else Get(ms[1..], key)
  }

  function Keys(ms: seq<Member>): (ks: seq<string>)
    ensures |ks| == |ms|
    ensures forall i :: 0 <= i < |ms| ==> ks[i] == ms[i].key
  {
    seq(|ms|, i requires 0 <= i < |ms| => ms[i].key)
  }

  /** JavaScript truthiness of a JSON value (numbers are integers here, so no NaN). */
  predicate Truthy(j: Json)
  {
    match j
    case JNull => false
    case JBool(b) => b
    case JNum(n) => n != 0
    case JStr(s) => s != ""
    case JArr(_) => true
    case JObj(_) => true
  }

  /** `obj[key] = v`: an existing member keeps its place, a new one goes last. */
  function Set(ms: seq<Member>, key: string, v: Json): (r: seq<Member>)
    ensures Get(r, key) == Some(v)
    ensures forall k :: k != key ==> Get(r, k) == Get(ms, k)
    ensures Has(ms, key) ==> |r| == |ms|
    ensures !Has(ms, key) ==> r == ms + [Member(key, v)]
  {
    if |ms| == 0 then [Member(key, v)]
    else if ms[0].key == key then
      SetFirst(ms, key, v);
      [Member(key, v)] + ms[1..]
    else
      var rest := Set(ms[1..], key, v);
      SetLater(ms, key, v, rest);
      SetLaterShape(ms, key, v, rest);
      [ms[0]] + rest
  }

  /** Replacing the first member when it has the key. */
  lemma SetFirst(ms: seq<Member>, key: string, v: Json)
    requires |ms| > 0 && ms[0].key == key
    ensures var r := [Member(key, v)] + ms[1..];
            && Get(r, key) == Some(v)
            && (forall k :: k != key ==> Get(r, k) == Get(ms, k))
            && Has(ms, key) && |r| == |ms|
  {
    var r := [Member(key, v)] + ms[1..];
    assert r[1..] == ms[1..];
    assert ms[0].key == key;
  }

  /** Keeping the first member when the key is further on or missing: the lookups. */
  lemma SetLater(ms: seq<Member>, key: string, v: Json, rest: seq<Member>)
    requires |ms| > 0 && ms[0].key != key
    requires Get(rest, key) == Some(v)
    requires forall k :: k != key ==> Get(rest, k) == Get(ms[1..], k)
    ensures var r := [ms[0]] + rest;
            && Get(r, key) == Some(v)
            && (forall k :: k != key ==> Get(r, k) == Get(ms, k))
  {
    var r := [ms[0]] + rest;
    GetCons(ms[0], rest, key);
    forall k | k != key
      ensures Get(r, k) == Get(ms, k)
    {
      GetCons(ms[0], rest, k);
      GetCons(ms[0], ms[1..], k);
      assert ms == [ms[0]] + ms[1..];
    }
  }

  /** Keeping the first member when the key is further on or missing: the length, or the appended member. */
  lemma SetLaterShape(ms: seq<Member>, key: string, v: Json, rest: seq<Member>)
    requires |ms| > 0 && ms[0].key != key
    requires Has(ms[1..], key) ==> |rest| == |ms[1..]|
    requires !Has(ms[1..], key) ==> rest == ms[1..] + [Member(key, v)]
    ensures var r := [ms[0]] + rest;
            && (Has(ms, key) ==> |r| == |ms|)
            && (!Has(ms, key) ==> r == ms + [Member(key, v)])
  {
    assert ms == [ms[0]] + ms[1..];
    HasCons(ms, key);
  }

  /** Looking a key up in a list with one more member in front. */
  lemma GetCons(m: Member, rest: seq<Member>, key: string)
    ensures Get([m] + rest, key) == if m.key == key then Some(m.value) else Get(rest, key)
  {
    assert ([m] + rest)[1..] == rest;
  }

  /** A key is in a non-empty member list iff it is the first key or in the rest. */
  lemma HasCons(ms: seq<Member>, key: string)
    requires |ms| > 0
    ensures Has(ms, key) <==> ms[0].key == key || Has(ms[1..], key)
  {
    if Has(ms[1..], key) {
      var i :| 0 <= i < |ms[1..]| && ms[1..][i].key == key;
      assert ms[i + 1].key == key;
    }
    if Has(ms, key) && ms[0].key != key {
      var i :| 0 <= i < |ms| && ms[i].key == key;
      assert ms[1..][i - 1].key == key;
    }
  }

  /** Appending a member changes no lookup of a key that was already there or is different. */
  lemma {:induction false} GetAppend(ms: seq<Member>, m: Member, key: string)
    requires key != m.key || Has(ms, key)
    ensures Get(ms + [m], key) == Get(ms, key)
  {
    if |ms| > 0 && ms[0].key != key {
      assert (ms + [m])[1..] == ms[1..] + [m];
      GetAppend(ms[1..], m, key);
    }
  }
}
