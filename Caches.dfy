/**
 * The Cache Storage interface of the Service Workers specification
 * (section 5.4 `Cache` and section 5.5 `CacheStorage`), reduced to the
 * operations the service worker calls: open, keys, delete, match, put and addAll.
 * A cache maps a request URL to the stored response; the storage maps a
 * cache name to its cache and remembers the order in which names were created,
 * which is the order `keys()` reports.
 */
module Caches {
  import opened Wrappers
  import opened Fetch

  type Cache = map<string, Response>
  type Store = map<string, Cache>

  predicate NoDuplicates(s: seq<string>) {
    forall i, j :: 0 <= i < j < |s| ==> s[i] != s[j]
  }

  /** s with every occurrence of x taken out, the others kept in order. */
  function Remove(s: seq<string>, x: string): (r: seq<string>)
    ensures forall y :: y in r <==> y in s && y != x
    ensures |r| <= |s|
  {
    if s == [] then []
    else (if s[0] == x then [] else [s[0]]) + Remove(s[1..], x)
  }

  lemma {:induction false} RemoveKeepsDistinct(s: seq<string>, x: string)
    requires NoDuplicates(s)
    ensures NoDuplicates(Remove(s, x))
  {
    if s != [] {
      assert NoDuplicates(s[1..]) by {
        forall i, j | 0 <= i < j < |s[1..]| ensures s[1..][i] != s[1..][j] {
          assert s[1..][i] == s[i + 1] && s[1..][j] == s[j + 1];
        }
      }
      RemoveKeepsDistinct(s[1..], x);
      assert s[0] !in s[1..] by {
        forall k | 0 <= k < |s[1..]| ensures s[1..][k] != s[0] {
          assert s[1..][k] == s[k + 1];
        }
      }
    }
  }

  lemma {:induction false} RemoveDistributes(a: seq<string>, b: seq<string>, x: string)
    ensures Remove(a + b, x) == Remove(a, x) + Remove(b, x)
  {
    if a != [] {
      assert (a + b)[0] == a[0];
      assert (a + b)[1..] == a[1..] + b;
      RemoveDistributes(a[1..], b, x);
    } else {
      assert a + b == b;
    }
  }

  lemma {:induction false} RemoveAbsent(s: seq<string>, x: string)
    requires x !in s
    ensures Remove(s, x) == s
  {
    if s != [] {
      RemoveAbsent(s[1..], x);
    }
  }

  /** The store after `caches.open(name)`: the named cache, created empty if it did not exist. */
  function WithCache(store: Store, name: string): (r: Store)
    ensures r.Keys == store.Keys + {name}
    ensures forall n :: n in store ==> r[n] == store[n]
    ensures name !in store ==> r[name] == map[]
  {
    if name in store then store else store[name := map[]]
  }

  /** A fetch outcome that `addAll` accepts: a response whose status is ok. */
  predicate Admissible(outcome: NetworkOutcome) {
    outcome.Received? && outcome.response.Ok()
  }

  function Urls(requests: seq<Request>): (r: seq<string>)
    ensures |r| == |requests|
    ensures forall i :: 0 <= i < |requests| ==> r[i] == requests[i].url
  {
    seq(|requests|, i requires 0 <= i < |requests| => requests[i].url)
  }

  /**
   * The entries `cache.addAll(requests)` would write, or the error it rejects with.
   * The batch is all-or-nothing: one network error or one non-ok response rejects
   * it, and then nothing is written.
   */
  function Batch(requests: seq<Request>, net: Request -> NetworkOutcome): (r: Result<Cache, string>)
    ensures r.Success? <==> forall i :: 0 <= i < |requests| ==> Admissible(net(requests[i]))
    ensures r.Success? ==> forall u :: u in r.value <==> u in Urls(requests)
    ensures r.Success? ==> forall u :: u in r.value ==> r.value[u].Ok()
  {
    if requests == [] then Success(map[])
    else match net(requests[0])
      case NetworkError(_) => Failure("TypeError")
      case Received(response) =>
        if !response.Ok() then Failure("TypeError")
        else match Batch(requests[1..], net)
          case Failure(e) => Failure(e)
          case Success(rest) => Success(map[requests[0].url := response] + rest)
  }

  /**
   * Whatever made it fail, a rejected batch rejects with a `TypeError`: `addAll`
   * does not pass on a network error's own reason.
   */
  lemma {:induction false} BatchRejectsWithTypeError(requests: seq<Request>, net: Request -> NetworkOutcome)
    requires Batch(requests, net).Failure?
    ensures Batch(requests, net).error == "TypeError"
  {
    if Admissible(net(requests[0])) {
      BatchRejectsWithTypeError(requests[1..], net);
    }
  }

  /** When the request URLs are distinct, an accepted batch stores each request's own response. */
  lemma {:induction false} BatchStoresEach(requests: seq<Request>, net: Request -> NetworkOutcome)
    requires NoDuplicates(Urls(requests))
    requires Batch(requests, net).Success?
    ensures forall i :: 0 <= i < |requests| ==>
              requests[i].url in Batch(requests, net).value &&
              Batch(requests, net).value[requests[i].url] == net(requests[i]).response
  {
    if requests != [] {
      var tail := requests[1..];
      assert Urls(tail) == Urls(requests)[1..];
      BatchStoresEach(tail, net);
      assert requests[0].url !in Urls(tail);
      forall i | 0 <= i < |requests|
        ensures requests[i].url in Batch(requests, net).value
        ensures Batch(requests, net).value[requests[i].url] == net(requests[i]).response
      {
        if i > 0 {
          assert requests[i] == tail[i - 1];
        }
      }
    }
  }

  /** The browser's cache storage for one origin. */
  class CacheStorage {
    /** Cache names in creation order. */
    var names: seq<string>
    var caches: Store

    ghost predicate Valid()
      reads this
    {
      NoDuplicates(names) && forall n :: n in caches <==> n in names
    }

    constructor ()
      ensures Valid() && names == [] && caches == map[]
    {
      names := [];
      caches := map[];
    }

    /** `caches.keys()`: every cache name, each once, in creation order. */
    method Keys() returns (ks: seq<string>)
      requires Valid()
      ensures NoDuplicates(ks)
      ensures forall n :: n in ks <==> n in caches
      ensures ks == names
    {
      ks := names;
    }

    /** `caches.open(name)`: the named cache, created empty (and appended to the names) if absent. */
    method Open(name: string)
      requires Valid()
      modifies this
      ensures Valid()
      ensures caches == WithCache(old(caches), name)
      ensures names == if name in old(caches) then old(names) else old(names) + [name]
    {
      if name !in caches {
        caches := caches[name := map[]];
        names := names + [name];
      }
    }

    /** `caches.delete(name)`: drops the named cache; resolves to whether it existed. */
    method Delete(name: string) returns (existed: bool)
      requires Valid()
      modifies this
      ensures Valid()
      ensures existed == (name in old(caches))
      ensures caches == old(caches) - {name}
      ensures names == Remove(old(names), name)
    {
      existed := name in caches;
      caches := caches - {name};
      RemoveKeepsDistinct(names, name);
      names := Remove(names, name);
    }

    /** `cache.match(request)` on the named cache: the stored response for the URL, if any. */
    method Match(name: string, url: string) returns (r: Option<Response>)
      requires Valid() && name in caches
      ensures r.Some? <==> url in caches[name]
      ensures r.Some? ==> r.value == caches[name][url]
    {
      if url in caches[name] {
        r := Some(caches[name][url]);
      } else {
        r := None;
      }
    }

    /** `cache.put(request, response)`: stores or replaces one entry of the named cache. */
    method Put(name: string, url: string, response: Response)
      requires Valid() && name in caches
      modifies this
      ensures Valid()
      ensures names == old(names)
      ensures caches == old(caches)[name := old(caches)[name][url := response]]
    {
      caches := caches[name := caches[name][url := response]];
    }

    /**
     * `cache.addAll(requests)`: fetches every request and, only if all of them
     * give ok responses, stores all of them; otherwise rejects and stores nothing.
     */
    method AddAll(name: string, requests: seq<Request>, net: Request -> NetworkOutcome)
      returns (outcome: Outcome<string>)
      requires Valid() && name in caches
      modifies this
      ensures Valid()
      ensures names == old(names)
      ensures outcome.Pass? <==> Batch(requests, net).Success?
      ensures outcome.Pass? ==>
                caches == old(caches)[name := old(caches)[name] + Batch(requests, net).value]
      ensures outcome.Fail? ==> caches == old(caches)
    {
      match Batch(requests, net)
      case Failure(e) =>
        outcome := Fail(e);
      case Success(entries) =>
        caches := caches[name := caches[name] + entries];
        outcome := Pass;
    }
  }
}
