/**
 * An account (`BUser`): its parsed cookie and its memo store of API results,
 * keyed first by method name and then by the serialised request params.
 */
module Accounts {
  import opened Wrappers
  import Cookie
  import Api

  /**
   * A request's params: None when the request omits them, else the argument
   * list. The store key is `JSON.stringify(params)`, an injective function of
   * the params (an omitted list and `[]` give different keys), so the params
   * themselves serve as the key.
   */
  type Params = Option<seq<int>>

  datatype Request = Request(op: Api.Method, params: Params)

  /** The nested `Map<method, Map<key, result>>`. */
  type Store = map<Api.Method, map<Params, Api.Value>>

  /** `get(request)`: the stored result, or undefined (None). */
  function Lookup(store: Store, req: Request): (r: Option<Api.Value>)
    ensures req.op !in store ==> r == None
    ensures r.Some? <==> req.op in store && req.params in store[req.op]
  {
    if req.op in store && req.params in store[req.op]
    then Some(store[req.op][req.params])
    else None
  }

  /** The store after `cache(request)` resolved to `v`: the inner map is created if missing, then the key is set. */
  function Stored(store: Store, req: Request, v: Api.Value): (s: Store)
    ensures s.Keys == store.Keys + {req.op}
    ensures forall m :: m in store && m != req.op ==> s[m] == store[m]
    ensures s[req.op].Keys == (if req.op in store then store[req.op].Keys else {}) + {req.params}
    ensures s[req.op][req.params] == v
    ensures forall k :: req.op in store && k in store[req.op] && k != req.params ==> s[req.op][k] == store[req.op][k]
  {
    var inner := if req.op in store then store[req.op] else map[];
    store[req.op := inner[req.params := v]]
  }

  /** Every stored result has the shape its method returns. */
  ghost predicate StoreShaped(store: Store) {
    forall m, k :: m in store && k in store[m] ==> Api.Shaped(m, store[m][k])
  }

  /** After caching, the same method and params read back the stored result. */
  lemma LookupStored(store: Store, req: Request, v: Api.Value)
    ensures Lookup(Stored(store, req, v), req) == Some(v)
  {
  }

  /** Caching overwrites only its own (method, params) entry. */
  lemma StoredKeepsOthers(store: Store, req: Request, v: Api.Value, other: Request)
    requires other != req
    ensures Lookup(Stored(store, req, v), other) == Lookup(store, other)
  {
  }

  /** Caching twice under one key keeps only the later result. */
  lemma StoredOverwrites(store: Store, req: Request, v: Api.Value, w: Api.Value)
    ensures Stored(Stored(store, req, v), req, w) == Stored(store, req, w)
  {
    var inner := if req.op in store then store[req.op] else map[];
    assert Stored(store, req, v)[req.op] == inner[req.params := v];
    assert inner[req.params := v][req.params := w] == inner[req.params := w];
  }

  /** Results cached with `params: []` are not found by a request that omits params, and vice versa. */
  lemma OmittedParamsDifferFromEmpty(store: Store, m: Api.Method, v: Api.Value)
    ensures Lookup(Stored(store, Request(m, Some([])), v), Request(m, None)) == Lookup(store, Request(m, None))
    ensures Lookup(Stored(store, Request(m, None), v), Request(m, Some([]))) == Lookup(store, Request(m, Some([])))
  {
  }

  class BUser {
    /** The raw cookie header the account was built from. */
    const cookieHeader: string
    /** `this.cookie`: the parsed cookie map. */
    const cookie: map<string, Option<string>>
    /** `this._cache`. */
    var store: Store

    ghost predicate Valid()
      reads this
    {
      StoreShaped(store)
    }

    constructor(cookieHeader: string := "")
      ensures this.cookieHeader == cookieHeader && cookie == Cookie.Parse(cookieHeader)
      ensures store == map[] && Valid()
    {
      this.cookieHeader := cookieHeader;
      cookie := Cookie.Parse(cookieHeader);
      store := map[];
    }

    /** `cookie.get("DedeUserID")`: the account's user id as written in its cookie. */
    function DedeUserId(): Option<string> {
      Cookie.Get(cookie, "DedeUserID")
    }

    /** `get(request)`. */
    function Get(req: Request): (r: Option<Api.Value>)
      reads this
      ensures req.op !in store ==> r == None
      ensures Valid() && r.Some? ==> Api.Shaped(req.op, r.value)
    {
      Lookup(store, req)
    }

    /**
     * `cache(request)`: call the method with the request's params, store the
     * result under (method, params) and resolve to the account itself.
     */
    method Cache(req: Request, response: Api.Response) returns (self: BUser)
      requires Valid() && Api.Decodable(req.op, response)
      modifies this
      ensures self == this && Valid()
      ensures store == Stored(old(store), req, Api.Decode(req.op, response))
      ensures Get(req) == Some(Api.Decode(req.op, response))
    {
      var result := Api.Decode(req.op, response);
      var inner := if req.op in store then store[req.op] else map[];
      store := store[req.op := inner[req.params := result]];
      self := this;
    }
  }
}
