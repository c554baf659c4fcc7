/** Request routing: the handler tables of `WebSocketServerLws` and the segmentwise url match. */
module Routing {
  import opened Primitives
  import opened Sequences
  import opened StringSplit
  import WebSocketFrames
  import WebSocketClient

  // ----- tables that group callbacks by key

  /** The callbacks registered under a key; a callback is known by its place in the registrations. */
  datatype Route<K> = Route(key: K, callbacks: seq<nat>)

  /** Scans for the key, appends to its callbacks, or appends a route. */
  function Register<K(==)>(table: seq<Route<K>>, key: K, callback: nat): seq<Route<K>> {
    if table == [] then [Route(key, [callback])]
    else if table[0].key == key then [Route(key, table[0].callbacks + [callback])] + table[1..]
    else [table[0]] + Register(table[1..], key, callback)
  }

  /** The table after registering the keys one after the other. */
  function TableOf<K(==)>(keys: seq<K>): seq<Route<K>> {
    if keys == [] then [] else Register(TableOf(keys[..|keys| - 1]), keys[|keys| - 1], |keys| - 1)
  }

  /** The distinct keys in the order of their first registration. */
  function Distinct<K(==)>(keys: seq<K>): (r: seq<K>)
    ensures (forall k | k in r :: k in keys) && (forall k | k in keys :: k in r)
    ensures forall i, j :: 0 <= i < j < |r| ==> r[i] != r[j]
  {
    if keys == [] then []
    else
      var n := |keys| - 1;
      var before := Distinct(keys[..n]);
      assert keys == keys[..n] + [keys[n]];
      if keys[n] in before then before else before + [keys[n]]
  }

  /** The registrations of one key, in order. */
  function RegistrationsOf<K(==)>(keys: seq<K>, key: K): seq<nat> {
    if keys == [] then []
    else
      var n := |keys| - 1;
      RegistrationsOf(keys[..n], key) + if keys[n] == key then [n] else []
  }

  ghost predicate Groups<K>(table: seq<Route<K>>, keys: seq<K>) {
    && |table| == |Distinct(keys)|
    && forall i :: 0 <= i < |table| ==> table[i] == Route(Distinct(keys)[i], RegistrationsOf(keys, Distinct(keys)[i]))
  }

  lemma {:induction false} RegisterAt<K>(table: seq<Route<K>>, key: K, callback: nat, p: nat)
    requires p <= |table| && (forall i :: 0 <= i < p ==> table[i].key != key)
    requires p < |table| ==> table[p].key == key
    ensures Register(table, key, callback) ==
            if p < |table| then table[p := Route(key, table[p].callbacks + [callback])]
            else table + [Route(key, [callback])]
    decreases |table|
  {
    if p > 0 {
      assert table[0].key != key;
      RegisterAt(table[1..], key, callback, p - 1);
      assert table == [table[0]] + table[1..];
    } else if table != [] {
      assert table == [table[0]] + table[1..];
    }
  }

  /** The table is the registrations grouped by key: distinct keys in the order of their first
      registration, each with exactly its own callbacks in registration order. */
  lemma {:induction false} TableGroupsRegistrations<K>(keys: seq<K>)
    ensures Groups(TableOf(keys), keys)
    decreases |keys|
  {
    if keys != [] {
      var n := |keys| - 1;
      TableGroupsRegistrations(keys[..n]);
      GroupsSnoc(TableOf(keys[..n]), keys[..n], keys[n]);
      assert keys == keys[..n] + [keys[n]];
    }
  }

  lemma RegistrationsSnoc<K>(keys: seq<K>, key: K, k: K)
    ensures RegistrationsOf(keys + [key], k) == RegistrationsOf(keys, k) + if key == k then [|keys|] else []
  {
    assert (keys + [key])[..|keys|] == keys;
  }

  lemma DistinctSnoc<K>(keys: seq<K>, key: K)
    ensures Distinct(keys + [key]) == if key in Distinct(keys) then Distinct(keys) else Distinct(keys) + [key]
  {
    assert (keys + [key])[..|keys|] == keys;
  }

  lemma GroupsSnoc<K>(table: seq<Route<K>>, keys: seq<K>, key: K)
    requires Groups(table, keys)
    ensures Groups(Register(table, key, |keys|), keys + [key])
  {
    var d, d' := Distinct(keys), Distinct(keys + [key]);
    DistinctSnoc(keys, key);
    var p := PlaceOf(d, key);
    RegisterAt(table, key, |keys|, p);
    if key !in d {
      NoRegistrations(keys, key);
    }
    forall i | 0 <= i < |d'|
      ensures Register(table, key, |keys|)[i] == Route(d'[i], RegistrationsOf(keys + [key], d'[i]))
    {
      RegistrationsSnoc(keys, key, d'[i]);
    }
  }

  lemma PlaceOf<K>(d: seq<K>, key: K) returns (p: nat)
    ensures if key in d then p < |d| && d[p] == key else p == |d|
  {
    p := |d|;
    if key in d {
      p :| 0 <= p < |d| && d[p] == key;
    }
  }

  lemma {:induction false} NoRegistrations<K>(keys: seq<K>, key: K)
    requires key !in keys
    ensures RegistrationsOf(keys, key) == []
  {
    if keys != [] {
      NoRegistrations(keys[..|keys| - 1], key);
    }
  }

  /** What a pass over the table calls, for a condition on keys. */
  function Calls<K>(table: seq<Route<K>>, matches: K -> bool): seq<nat> {
    if table == [] then []
    else (if matches(table[0].key) then table[0].callbacks else []) + Calls(table[1..], matches)
  }

  predicate Found<K>(table: seq<Route<K>>, matches: K -> bool) {
    exists i :: 0 <= i < |table| && matches(table[i].key)
  }

  lemma {:induction false} CallsSnoc<K>(table: seq<Route<K>>, r: Route<K>, matches: K -> bool)
    ensures Calls(table + [r], matches) == Calls(table, matches) + if matches(r.key) then r.callbacks else []
  {
    if table == [] {
      assert table + [r] == [r] && [r][1..] == [];
    } else {
      CallsSnoc(table[1..], r, matches);
      TailOfSnoc(table, r);
      Associate(if matches(table[0].key) then table[0].callbacks else [], Calls(table[1..], matches),
                if matches(r.key) then r.callbacks else []);
    }
  }

  function Times(calls: seq<nat>, j: nat): nat { multiset(calls)[j] }

  /** A callback registered under its key is listed there once. */
  lemma {:induction false} RegisteredOnce<K>(keys: seq<K>, key: K, j: nat)
    ensures Times(RegistrationsOf(keys, key), j) == if j < |keys| && keys[j] == key then 1 else 0
  {
    if keys != [] {
      RegisteredOnce(keys[..|keys| - 1], key, j);
    }
  }

  lemma {:induction false} CallsOfPrefix<K>(keys: seq<K>, matches: K -> bool, j: nat, n: nat)
    requires n <= |TableOf(keys)| && Groups(TableOf(keys), keys)
    ensures Times(Calls(TableOf(keys)[..n], matches), j) ==
            if j < |keys| && keys[j] in Distinct(keys)[..n] && matches(keys[j]) then 1 else 0
  {
    var table, d := TableOf(keys), Distinct(keys);
    if n > 0 {
      CallsOfPrefix(keys, matches, j, n - 1);
      TakeSnoc(table, n - 1);
      TakeSnoc(d, n - 1);
      CallsSnoc(table[..n - 1], table[n - 1], matches);
      RegisteredOnce(keys, d[n - 1], j);
    }
  }

  lemma FoundIffRegistered<K>(keys: seq<K>, matches: K -> bool)
    ensures Found(TableOf(keys), matches) <==> exists i :: 0 <= i < |keys| && matches(keys[i])
  {
    TableGroupsRegistrations(keys);
    var table, d := TableOf(keys), Distinct(keys);
    if Found(table, matches) {
      var k :| 0 <= k < |table| && matches(table[k].key);
      assert d[k] in keys;
    }
    if i :| 0 <= i < |keys| && matches(keys[i]) {
      assert keys[i] in d;
      var k :| 0 <= k < |d| && d[k] == keys[i];
      assert matches(table[k].key);
    }
  }

  /** Each registered callback runs exactly once if its key matches, and never otherwise. */
  lemma EveryMatchingCallbackRunsOnce<K>(keys: seq<K>, matches: K -> bool, j: nat)
    requires j < |keys|
    ensures Times(Calls(TableOf(keys), matches), j) == if matches(keys[j]) then 1 else 0
  {
    TableGroupsRegistrations(keys);
    var table, d := TableOf(keys), Distinct(keys);
    CallsOfPrefix(keys, matches, j, |table|);
    assert table[..|table|] == table && d[..|d|] == d;
  }

  // ----- url matching

  /** Inclusive match of url segments: a segment that starts with ':' matches anything, and only the
      segments that both sides have are compared. */
  predicate SegmentsMatch(request: seq<string>, subscribed: seq<string>) {
    forall i :: 0 <= i < |subscribed| ==>
      StartsWith(subscribed[i], ":") || i >= |request| || subscribed[i] == request[i]
  }

  function UrlMatches(requestUrl: string, subscribedUrl: string): bool {
    SegmentsMatch(Pieces(requestUrl, "/"), Pieces(subscribedUrl, "/"))
  }

  method MatchInclusiveUrl(requestUrl: string, subscribedUrl: string) returns (r: bool)
    requires |requestUrl| <= MAX_INT && |subscribedUrl| <= MAX_INT
    ensures r == UrlMatches(requestUrl, subscribedUrl)
  {
    var requestSplits := Split(requestUrl, "/");
    var subscribedSplits := Split(subscribedUrl, "/");
    for i := 0 to |subscribedSplits|
      invariant forall k :: 0 <= k < i ==>
        StartsWith(subscribedSplits[k], ":") || k >= |requestSplits| || subscribedSplits[k] == requestSplits[k]
    {
      if StartsWith(subscribedSplits[i], ":") {
        continue;
      }
      if i < |requestSplits| && subscribedSplits[i] != requestSplits[i] {
        return false;
      }
    }
    r := true;
  }

  /** A segment that begins with a colon. */
  predicate IsVariable(segment: string) { segment != "" && segment[0] == ':' }

  lemma OccurringSlash(p: string, i: nat)
    requires OccursAt(p, "/", i)
    ensures '/' in p
  {
    assert p[i..i + 1][0] == p[i];
  }

  lemma SlashFree(segments: seq<string>)
    requires forall p | p in segments :: '/' !in p
    ensures DelimiterFree(segments, "/")
  {
    forall k: nat, i: nat | k < |segments|
      ensures !OccursAt(segments[k], "/", i)
    {
      if OccursAt(segments[k], "/", i) {
        OccurringSlash(segments[k], i);
      }
    }
  }

  /** Urls put together from segments without a slash match exactly when their segments are equal at every
      common place where the subscription has no variable. */
  lemma MatchIsSegmentwise(request: seq<string>, subscribed: seq<string>)
    requires request != [] && subscribed != []
    requires forall p | p in request + subscribed :: '/' !in p
    ensures UrlMatches(Join(request, "/"), Join(subscribed, "/")) <==>
            forall i :: 0 <= i < |request| && i < |subscribed| && !(subscribed[i] != "" && subscribed[i][0] == ':')
                        ==> subscribed[i] == request[i]
  {
    assert forall p | p in request :: p in request + subscribed;
    assert forall p | p in subscribed :: p in request + subscribed;
    SlashFree(request);
    SlashFree(subscribed);
    PiecesOfJoin(request, "/");
    PiecesOfJoin(subscribed, "/");
    SegmentsMatchExactly(request, subscribed);
  }

  lemma SegmentsMatchExactly(request: seq<string>, subscribed: seq<string>)
    ensures SegmentsMatch(request, subscribed) <==>
            forall i :: 0 <= i < |request| && i < |subscribed| && !IsVariable(subscribed[i])
                        ==> subscribed[i] == request[i]
  {
    forall i | 0 <= i < |subscribed|
      ensures StartsWith(subscribed[i], ":") <==> IsVariable(subscribed[i])
    {
      assert subscribed[i] != "" ==> (subscribed[i][..1] == ":" <==> subscribed[i][0] == ':');
    }
  }

  /** Anything without a slash can stand for the variables of a subscription. */
  lemma FilledTemplatesMatch(subscribed: seq<string>, values: seq<string>) returns (request: seq<string>)
    requires subscribed != [] && |values| == |subscribed|
    requires forall p | p in subscribed + values :: '/' !in p
    ensures |request| == |subscribed|
    ensures forall i :: 0 <= i < |subscribed| ==>
                          request[i] == if IsVariable(subscribed[i]) then values[i] else subscribed[i]
    ensures UrlMatches(Join(request, "/"), Join(subscribed, "/"))
  {
    request := seq(|subscribed|, i requires 0 <= i < |subscribed| =>
                     if IsVariable(subscribed[i]) then values[i] else subscribed[i]);
    forall p | p in request + subscribed
      ensures p in subscribed + values
    {
      if p in request {
        var i :| 0 <= i < |request| && request[i] == p;
        assert values[i] in values && subscribed[i] in subscribed;
      }
    }
    MatchIsSegmentwise(request, subscribed);
  }

  /** A subscription without variables is matched exactly by the urls whose segments are a prefix of its own,
      and by those it is a prefix of. */
  lemma PlainMatchIsPrefix(requestUrl: string, subscribedUrl: string)
    requires forall p | p in Pieces(subscribedUrl, "/") :: !IsVariable(p)
    ensures var request, subscribed := Pieces(requestUrl, "/"), Pieces(subscribedUrl, "/");
            UrlMatches(requestUrl, subscribedUrl) <==> request <= subscribed || subscribed <= request
  {
    SegmentsArePrefixes(Pieces(requestUrl, "/"), Pieces(subscribedUrl, "/"));
  }

  lemma SegmentsArePrefixes(request: seq<string>, subscribed: seq<string>)
    requires forall p | p in subscribed :: !IsVariable(p)
    ensures SegmentsMatch(request, subscribed) <==> request <= subscribed || subscribed <= request
  {
    SegmentsMatchExactly(request, subscribed);
    assert forall i :: 0 <= i < |subscribed| ==> subscribed[i] in subscribed;
  }

  /** A request for a prefix of any url runs its handlers. */
  lemma ShorterRequestsMatch(segments: seq<string>, n: nat)
    requires 0 < n <= |segments| && forall p | p in segments :: '/' !in p
    ensures UrlMatches(Join(segments[..n], "/"), Join(segments, "/"))
  {
    MatchIsSegmentwise(segments[..n], segments);
  }

  /** The url "*" is matched as a segment only by requests whose first segment is "*". */
  lemma StarIsNoPattern(requestUrl: string)
    ensures UrlMatches(requestUrl, "*") <==> Pieces(requestUrl, "/")[0] == "*"
  {
    assert "*"[0..1][0] == '*';
    assert !OccursAt("*", "/", 0) && !OccursAt("*", "/", 1);
    assert FindFrom("*", "/", 0) == None;
    assert Pieces("*", "/") == ["*"];
  }

  // ----- the server

  datatype HttpMethod = UnknownMethod | Get | Post | Put | Options | Delete | Head | Patch

  datatype HttpKey = HttpKey(url: string, method_: HttpMethod)

  function Matching(url: string, m: HttpMethod): HttpKey -> bool {
    (k: HttpKey) => UrlMatches(url, k.url) && k.method_ == m
  }

  function Wildcard(m: HttpMethod): HttpKey -> bool { (k: HttpKey) => k.url == "*" && k.method_ == m }

  /** The callbacks a request runs, and whether it is answered with NotFound. */
  function Dispatch(table: seq<Route<HttpKey>>, url: string, m: HttpMethod): (seq<nat>, bool) {
    if Found(table, Matching(url, m)) then (Calls(table, Matching(url, m)), false)
    else if Found(table, Wildcard(m)) then (Calls(table, Wildcard(m)), false)
    else ([], true)
  }

  /** The header fields every `HttpRequestResult` starts with. */
  const RESULT_HEADERS: map<string, string> :=
    map["Access-Control-Allow-Origin" := "*",
        "Access-Control-Allow-Methods" := "GET, POST, PUT, DELETE, PATCH, OPTIONS",
        "Access-Control-Allow-Headers" := "X-Requested-With, content-type, Authorization"]

  function NotFoundPacket(pre: nat): WebSocketFrames.LwsPacket {
    WebSocketFrames.LwsPacket(WebSocketClient.NOT_FOUND, "application/json", RESULT_HEADERS,
                              WebSocketFrames.Zeros(pre), 0, true, true, true)
  }

  class Server {
    var httpHandlers: seq<Route<HttpKey>>
    var webSocketHandlers: seq<Route<string>>

    constructor ()
      ensures httpHandlers == [] && webSocketHandlers == []
    {
      httpHandlers, webSocketHandlers := [], [];
    }

    method Handle(m: HttpMethod, url: string, callback: nat)
      modifies this`httpHandlers
      ensures httpHandlers == Register(old(httpHandlers), HttpKey(url, m), callback)
    {
      var key := HttpKey(url, m);
      for i := 0 to |httpHandlers|
        invariant httpHandlers == old(httpHandlers)
        invariant forall k :: 0 <= k < i ==> httpHandlers[k].key != key
      {
        if httpHandlers[i].key.url != url || httpHandlers[i].key.method_ != m {
          continue;
        }
        RegisterAt(httpHandlers, key, callback, i);
        httpHandlers := httpHandlers[i := Route(key, httpHandlers[i].callbacks + [callback])];
        return;
      }
      RegisterAt(httpHandlers, key, callback, |httpHandlers|);
      httpHandlers := httpHandlers + [Route(key, [callback])];
    }

    method HandleWebSocket(url: string, callback: nat)
      modifies this`webSocketHandlers
      ensures webSocketHandlers == Register(old(webSocketHandlers), url, callback)
    {
      for i := 0 to |webSocketHandlers|
        invariant webSocketHandlers == old(webSocketHandlers)
        invariant forall k :: 0 <= k < i ==> webSocketHandlers[k].key != url
      {
        if webSocketHandlers[i].key != url {
          continue;
        }
        RegisterAt(webSocketHandlers, url, callback, i);
        webSocketHandlers := webSocketHandlers[i := Route(url, webSocketHandlers[i].callbacks + [callback])];
        return;
      }
      RegisterAt(webSocketHandlers, url, callback, |webSocketHandlers|);
      webSocketHandlers := webSocketHandlers + [Route(url, [callback])];
    }

    /** The loop over the handlers whose url and method match. */
    method CallMatching(url: string, m: HttpMethod) returns (called: seq<nat>, found: bool)
      requires |url| <= MAX_INT && forall i :: 0 <= i < |httpHandlers| ==> |httpHandlers[i].key.url| <= MAX_INT
      ensures called == Calls(httpHandlers, Matching(url, m))
      ensures found <==> Found(httpHandlers, Matching(url, m))
    {
      found, called := false, [];
      for i := 0 to |httpHandlers|
        invariant called == Calls(httpHandlers[..i], Matching(url, m))
        invariant found <==> Found(httpHandlers[..i], Matching(url, m))
      {
        OneMoreRoute(httpHandlers, i, Matching(url, m));
        var matches := MatchInclusiveUrl(url, httpHandlers[i].key.url);
        if !matches || httpHandlers[i].key.method_ != m {
          continue;
        }
        found := true;
        called := called + httpHandlers[i].callbacks;
      }
      assert httpHandlers[..|httpHandlers|] == httpHandlers;
    }

    /** The loop over the handlers registered for "*". */
    method CallWildcards(m: HttpMethod) returns (called: seq<nat>, found: bool)
      ensures called == Calls(httpHandlers, Wildcard(m))
      ensures found <==> Found(httpHandlers, Wildcard(m))
    {
      found, called := false, [];
      for i := 0 to |httpHandlers|
        invariant called == Calls(httpHandlers[..i], Wildcard(m))
        invariant found <==> Found(httpHandlers[..i], Wildcard(m))
      {
        OneMoreRoute(httpHandlers, i, Wildcard(m));
        if httpHandlers[i].key.url != "*" || httpHandlers[i].key.method_ != m {
          continue;
        }
        found := true;
        called := called + httpHandlers[i].callbacks;
      }
      assert httpHandlers[..|httpHandlers|] == httpHandlers;
    }

    /** `called` lists the callbacks in the order they are run; what they send is their own. */
    method HandleHttpRequest(client: WebSocketClient.Client, url: string, m: HttpMethod) returns (called: seq<nat>)
      requires |url| <= MAX_INT && forall i :: 0 <= i < |httpHandlers| ==> |httpHandlers[i].key.url| <= MAX_INT
      modifies client`sendList, client`cancels
      ensures called == Dispatch(httpHandlers, url, m).0
      ensures client.sendList == if Dispatch(httpHandlers, url, m).1
                                 then old(client.sendList) + [NotFoundPacket(client.lwsPre)] else old(client.sendList)
    {
      var found;
      called, found := CallMatching(url, m);
      if !found {
        called, found := CallWildcards(m);
        if !found {
          NothingFoundNothingCalled(httpHandlers, Wildcard(m));
          client.SendHttpResult(WebSocketClient.NOT_FOUND, "application/json", RESULT_HEADERS, []);
          NotFoundIsOnePacket(client.lwsPre);
        }
      }
    }

    /** Websocket handlers are found by the exact url. */
    method HandleNewWebSocketClient(url: string) returns (called: seq<nat>, found: bool)
      ensures called == Calls(webSocketHandlers, (k: string) => k == url)
      ensures found <==> Found(webSocketHandlers, (k: string) => k == url)
    {
      ghost var same := (k: string) => k == url;
      found := false;
      called := [];
      for i := 0 to |webSocketHandlers|
        invariant called == Calls(webSocketHandlers[..i], same)
        invariant found <==> Found(webSocketHandlers[..i], same)
      {
        OneMoreRoute(webSocketHandlers, i, same);
        if webSocketHandlers[i].key != url {
          continue;
        }
        found := true;
        called := called + webSocketHandlers[i].callbacks;
      }
      assert webSocketHandlers[..|webSocketHandlers|] == webSocketHandlers;
      SameCondition(webSocketHandlers, same, (k: string) => k == url);
    }
  }

  lemma {:induction false} SameCondition<K>(table: seq<Route<K>>, f: K -> bool, g: K -> bool)
    requires forall i :: 0 <= i < |table| ==> f(table[i].key) == g(table[i].key)
    ensures Calls(table, f) == Calls(table, g) && (Found(table, f) <==> Found(table, g))
  {
    if table != [] {
      assert f(table[0].key) == g(table[0].key);
      forall i | 0 <= i < |table[1..]|
        ensures f(table[1..][i].key) == g(table[1..][i].key)
      {
        assert table[1..][i] == table[i + 1];
      }
      SameCondition(table[1..], f, g);
    }
  }

  lemma FoundSnoc<K>(table: seq<Route<K>>, r: Route<K>, matches: K -> bool)
    ensures Found(table + [r], matches) <==> Found(table, matches) || matches(r.key)
  {
    if Found(table, matches) {
      var i :| 0 <= i < |table| && matches(table[i].key);
      assert matches((table + [r])[i].key);
    }
    if matches(r.key) {
      assert matches((table + [r])[|table|].key);
    }
  }

  lemma OneMoreRoute<K>(table: seq<Route<K>>, i: nat, matches: K -> bool)
    requires i < |table|
    ensures Calls(table[..i + 1], matches) ==
            Calls(table[..i], matches) + if matches(table[i].key) then table[i].callbacks else []
    ensures Found(table[..i + 1], matches) <==> Found(table[..i], matches) || matches(table[i].key)
  {
    TakeSnoc(table, i);
    CallsSnoc(table[..i], table[i], matches);
    FoundSnoc(table[..i], table[i], matches);
  }

  lemma {:induction false} NothingFoundNothingCalled<K>(table: seq<Route<K>>, matches: K -> bool)
    requires !Found(table, matches)
    ensures Calls(table, matches) == []
  {
    if table != [] {
      assert !matches(table[0].key);
      forall i | 0 <= i < |table[1..]|
        ensures !matches(table[1..][i].key)
      {
        assert table[1..][i] == table[i + 1];
      }
      NothingFoundNothingCalled(table[1..], matches);
    }
  }

  lemma NotFoundIsOnePacket(pre: nat)
    ensures var m := WebSocketFrames.Message(WebSocketClient.NOT_FOUND, "application/json", RESULT_HEADERS, [], true);
            WebSocketFrames.Fragments(pre, m) == [NotFoundPacket(pre)]
    ensures var p := NotFoundPacket(pre);
            && p.statusCode == 404 && p.contentType == "application/json" && p.headers == RESULT_HEADERS
            && p.payload == seq(pre, _ => 0) && p.contentLength == 0 && p.isFirst && p.isFinal
  {
    var none: seq<byte> := [];
    assert WebSocketFrames.Zeros(pre) + none == WebSocketFrames.Zeros(pre);
  }

  /** A request to the table made by any registrations: each callback whose url and method match runs
      exactly once; when none matches each callback for "*" of the method does; when there is none of
      those either, nothing runs and NotFound is queued. */
  lemma RequestsAreRouted(keys: seq<HttpKey>, url: string, m: HttpMethod, j: nat)
    requires j < |keys|
    ensures var (called, notFound) := Dispatch(TableOf(keys), url, m);
            var matching := exists i :: 0 <= i < |keys| && keys[i].method_ == m && UrlMatches(url, keys[i].url);
            var wildcard := exists i :: 0 <= i < |keys| && keys[i].method_ == m && keys[i].url == "*";
            && Times(called, j) ==
               (if keys[j].method_ == m && (UrlMatches(url, keys[j].url) || (!matching && keys[j].url == "*"))
                then 1 else 0)
            && (notFound <==> !matching && !wildcard)
            && (notFound ==> called == [])
  {
    EveryMatchingCallbackRunsOnce(keys, Matching(url, m), j);
    EveryMatchingCallbackRunsOnce(keys, Wildcard(m), j);
    FoundIffRegistered(keys, Matching(url, m));
    FoundIffRegistered(keys, Wildcard(m));
  }
}
