/** Signing of a request to the exchange's kline endpoint: the parameters
    are rendered as `key=value` pairs in ascending key order, joined with
    `&`, the HMAC-SHA256 of that string under the API secret is computed, and
    the digest is stored in the same parameter dict under "signature". */
module RequestSigning {
  import opened Strings
  import opened Dicts

  /** A parameter value: the request builder puts text and one integer
      (`limit`) into the dict. */
  datatype Value = Str(s: string) | Int(n: int)

  type Entry = (string, Value)

  /** `f"{v}"`. */
  function Render(v: Value): (r: string)
    ensures v.Int? ==> |r| > 0 && '&' !in r && '=' !in r
  {
    match v
    case Str(s) => s
    case Int(n) => IntDecimal(n)
  }

  /** `f"{k}={v}"`. */
  function Pair(e: Entry): (p: string)
    ensures '=' in p
    ensures |p| == |e.0| + 1 + |Render(e.1)|
  {
    e.0 + "=" + Render(e.1)
  }

  /** A key without `=` is what precedes the first `=` of its pair. */
  lemma PairKeyRecoverable(e: Entry)
    requires '=' !in e.0
    ensures Split(Pair(e), '=')[0] == e.0
  {
    assert Pair(e) == e.0 + ['='] + Render(e.1);
    SplitAtFirstSeparator(e.0, Render(e.1), '=');
  }

  function Pairs(es: seq<Entry>): (ps: seq<string>)
    ensures |ps| == |es|
    ensures forall i :: 0 <= i < |es| ==> ps[i] == Pair(es[i])
  {
    if es == [] then [] else [Pair(es[0])] + Pairs(es[1..])
  }

  /** The string that is signed: the `key=value` pairs of the items sorted
      by key, joined with `&`. */
  function Query(items: seq<Entry>): (q: string)
    ensures q == "" <==> items == []
  {
    var ps := Pairs(SortByKey(items));
    SortByKeySameEntries(items);
    assert items != [] ==> |ps| > 0 && ps[0] != [];
    Join(ps, '&')
  }

  /** No key and no rendered value contains `&`. */
  predicate Separable(items: seq<Entry>)
  {
    forall i :: 0 <= i < |items| ==> '&' !in items[i].0 && '&' !in Render(items[i].1)
  }

  /** The query string is the dict's `key=value` pairs, one per entry, in
      strictly ascending key order, separated by exactly one `&` each: when
      no key or value contains `&`, splitting it on `&` gives those pairs
      back. */
  lemma QueryLayout(items: seq<Entry>)
    requires DistinctKeys(items) && items != [] && Separable(items)
    ensures var q, sorted := Query(items), SortByKey(items);
            && StrictlyAscending(sorted)
            && DistinctKeys(sorted)
            && (forall e :: e in sorted <==> e in items)
            && Split(q, '&') == Pairs(sorted)
            && |Split(q, '&')| == |items|
            && Count(q, '&') == |items| - 1
  {
    var sorted := SortByKey(items);
    SortByKeyAscending(items);
    SortByKeySameEntries(items);
    var ps := Pairs(sorted);
    forall i | 0 <= i < |ps| ensures '&' !in ps[i] {
      assert sorted[i] in items;
      var j :| 0 <= j < |items| && items[j] == sorted[i];
    }
    SplitJoin(ps, '&');
    forall i, j | 0 <= i < j < |sorted| ensures sorted[i].0 != sorted[j].0 {
      LessIrreflexive(sorted[i].0);
    }
  }

  /** Two dicts with the same entries give the same query string, whatever
      order their keys were inserted in. */
  lemma QueryOrderIndependent(a: seq<Entry>, b: seq<Entry>)
    requires DistinctKeys(a) && DistinctKeys(b)
    requires ToMap(a) == ToMap(b)
    ensures Query(a) == Query(b)
  {
    SortByKeyOrderIndependent(a, b);
  }

  /** The signature is a function of the secret and the dict's entries only. */
  lemma SignatureOrderIndependent(a: seq<Entry>, b: seq<Entry>, apiSecret: string, hmacSha256: (string, string) -> string)
    requires DistinctKeys(a) && DistinctKeys(b)
    requires ToMap(a) == ToMap(b)
    ensures hmacSha256(apiSecret, Query(a)) == hmacSha256(apiSecret, Query(b))
  {
    QueryOrderIndependent(a, b);
  }

  const SignatureKey: string := "signature"

  /** A "signature" entry already present is signed like any other parameter
      (its pair is part of the query string) before it is overwritten. */
  lemma OldSignatureIsSigned(items: seq<Entry>)
    requires DistinctKeys(items)
    requires SignatureKey in ToMap(items)
    ensures Pair((SignatureKey, ToMap(items)[SignatureKey])) in Pairs(SortByKey(items))
  {
    var e := (SignatureKey, ToMap(items)[SignatureKey]);
    ToMapMembership(items, e);
    SortByKeySameEntries(items);
    var sorted := SortByKey(items);
    var i :| 0 <= i < |sorted| && sorted[i] == e;
    assert Pairs(sorted)[i] == Pair(e);
  }

  /** The parameter dict the request builder fills and `sign_request`
      updates in place; `items` lists its entries in insertion order. */
  class ParamDict {
    var items: seq<Entry>

    ghost predicate Valid()
      reads this
    {
      DistinctKeys(items)
    }

    /** A dict built from a literal: its entries in the order written, each
        key once. */
    constructor(es: seq<Entry>)
      requires DistinctKeys(es)
      ensures items == es && Valid()
    {
      items := es;
    }

    /** The dict as a mapping from keys to values. */
    function Entries(): map<string, Value>
      reads this
    {
      ToMap(items)
    }

    /** `d[key] = v`. */
    method Put(key: string, v: Value)
      requires Valid()
      modifies this
      ensures Valid()
      ensures items == Assign(old(items), key, v)
      ensures Entries() == old(Entries())[key := v]
    {
      AssignKeepsDistinct(items, key, v);
      AssignUpdatesMap(items, key, v);
      items := Assign(items, key, v);
    }
  }

  /** The parameter dict `get_kline` builds before signing: symbol, interval,
      limit and the millisecond timestamp (an input here), in that order. */
  method KlineParams(symbol: string, interval: string, limit: int, timestamp: string)
    returns (d: ParamDict)
    ensures fresh(d) && d.Valid()
    ensures d.items == [("symbol", Str(symbol)), ("interval", Str(interval)),
                        ("limit", Int(limit)), ("timestamp", Str(timestamp))]
    ensures SignatureKey !in d.Entries()
  {
    var es := [("symbol", Str(symbol)), ("interval", Str(interval)),
               ("limit", Int(limit)), ("timestamp", Str(timestamp))];
    d := new ParamDict(es);
  }

  /** `sign_request(params, api_secret)`. The HMAC-SHA256 hex digest is the
      parameter `hmacSha256`, applied to the secret and the query string. The
      dict is updated in place and returned: every entry but "signature" is
      kept as it was, "signature" now maps to the digest of the query built
      from the dict as it was on entry, and the other keys keep their order. */
  method SignRequest(params: ParamDict, apiSecret: string, hmacSha256: (string, string) -> string)
    returns (signed: ParamDict)
    requires params.Valid()
    modifies params
    ensures signed == params && params.Valid()
    ensures params.Entries() == old(params.Entries())[SignatureKey := Str(hmacSha256(apiSecret, Query(old(params.items))))]
    ensures params.items == Assign(old(params.items), SignatureKey, Str(hmacSha256(apiSecret, Query(old(params.items)))))
    ensures Keys(params.items) == if SignatureKey in old(params.Entries()) then old(Keys(params.items))
                                  else old(Keys(params.items)) + [SignatureKey]
  {
    var query := Query(params.items);
    var signature := hmacSha256(apiSecret, query);
    params.Put(SignatureKey, Str(signature));
    signed := params;
  }
}
