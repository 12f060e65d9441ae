/** The DNS cache of ipfilter/dnscache.go over the LRU cache. */
module DnsCache {
  import opened Prelude
  import opened LruSpec
  import Lru

  const MAX_CACHE: int := 512

  type Addr = Bytes

  /** What a resolver returns. */
  datatype Answer = Addrs(list: seq<Addr>) | NotFound

  type Resolver = string -> Answer

  /** The steps of LookupIP that hold the lock: probe the cache, and later store an answer.
      Between them other lookups may take steps of their own. */
  datatype Event = Probe(host: string) | Store(host: string)

  /** Storing keeps an answer only if it is neither an error nor empty. */
  function Ops(resolve: Resolver, e: Event): seq<Op<string, seq<Addr>>> {
    match e
    case Probe(h) => [Get(h)]
    case Store(h) => if resolve(h).Addrs? && resolve(h).list != [] then [Add(h, resolve(h).list)] else []
  }

  function History(resolve: Resolver, events: seq<Event>): seq<Op<string, seq<Addr>>> {
    if events == [] then [] else History(resolve, DropLast(events)) + Ops(resolve, events[|events| - 1])
  }

  /** What a lookup of h returns when the cache holds l: the hit, or the resolver's answer. */
  function Reply(resolve: Resolver, l: seq<(string, seq<Addr>)>, h: string): Answer {
    match Lookup(l, h)
    case Some(addrs) => Addrs(addrs)
    case None => resolve(h)
  }

  /** Every entry is what the resolver says of its host, and not empty. */
  predicate Truthful(resolve: Resolver, l: seq<(string, seq<Addr>)>) {
    forall i :: 0 <= i < |l| ==> l[i].1 != [] && resolve(l[i].0) == Addrs(l[i].1)
  }

  lemma {:induction false} LastAddedIsAnswer(resolve: Resolver, events: seq<Event>, h: string)
    ensures var v := LastAdded(History(resolve, events), h);
            v.Some? ==> v.value != [] && resolve(h) == Addrs(v.value)
  {
    if events != [] {
      var before, e := History(resolve, DropLast(events)), events[|events| - 1];
      LastAddedIsAnswer(resolve, DropLast(events), h);
      var ops := Ops(resolve, e);
      if ops == [] {
        assert History(resolve, events) == before;
      } else {
        assert History(resolve, events) == before + [ops[0]];
        LastAddedSnoc(before, ops[0], h);
      }
    }
  }

  lemma LastAddedSnoc<K, V>(ops: seq<Op<K, V>>, op: Op<K, V>, k: K)
    ensures LastAdded(ops + [op], k) == if op.Add? && op.key == k then Some(op.value) else LastAdded(ops, k)
  {
    assert DropLast(ops + [op]) == ops;
  }

  /** For every interleaving of lookups and every capacity: the cache holds true, non-empty answers
      only, and whatever a lookup returns is what the resolver would return. */
  lemma Transparent(resolve: Resolver, cap: int, events: seq<Event>, h: string)
    ensures var l := LruSpec.Run(cap, History(resolve, events));
            Truthful(resolve, l) && Reply(resolve, l, h) == resolve(h)
  {
    var ops := History(resolve, events);
    var l := LruSpec.Run(cap, ops);
    LruSpec.History(cap, ops);
    forall i | 0 <= i < |l| ensures l[i].1 != [] && resolve(l[i].0) == Addrs(l[i].1) {
      LastAddedIsAnswer(resolve, events, l[i].0);
    }
    HitIsLastAdded(cap, ops, h);
    LastAddedIsAnswer(resolve, events, h);
  }

  lemma TruthfulApply(resolve: Resolver, cap: int, l: seq<(string, seq<Addr>)>, op: Op<string, seq<Addr>>)
    requires Truthful(resolve, l)
    requires op.Get? || (op.Add? && op.value != [] && resolve(op.key) == Addrs(op.value))
    ensures Truthful(resolve, Apply(cap, l, op))
  {
    var w := Without(l, op.key);
    forall j | 0 <= j < |w| ensures w[j].1 != [] && resolve(w[j].0) == Addrs(w[j].1) {
      var i := WithoutFrom(l, op.key, j);
    }
    LookupHas(l, op.key);
  }

  class DNSCache {
    const cache: Lru.Cache<string, seq<Addr>>

    ghost predicate Valid(resolve: Resolver)
      reads this, cache, cache.ll
    {
      cache.Valid() && Truthful(resolve, cache.View())
    }

    constructor (resolve: Resolver)
      ensures Valid(resolve) && cache.maxEntries == MAX_CACHE && cache.View() == [] && fresh(cache)
    {
      cache := new Lru.Cache(MAX_CACHE, false);
    }

    /** The first section under the lock. */
    method Probe(resolve: Resolver, hostname: string) returns (hit: Option<seq<Addr>>)
      requires Valid(resolve)
      modifies cache, cache.ll
      ensures Valid(resolve) && cache.View() == Apply(cache.maxEntries, old(cache.View()), Get(hostname))
      ensures hit == Lookup(old(cache.View()), hostname)
      ensures hit.Some? ==> resolve(hostname) == Addrs(hit.value)
      ensures forall x :: x in cache.ll <==> x in old(cache.ll)
    {
      TruthfulApply(resolve, cache.maxEntries, cache.View(), Get(hostname));
      LookupHas(cache.View(), hostname);
      hit := cache.Get(hostname);
    }

    /** The second section under the lock. */
    method Store(resolve: Resolver, hostname: string, addrs: seq<Addr>)
      requires Valid(resolve) && addrs != [] && resolve(hostname) == Addrs(addrs)
      modifies cache, cache.ll
      ensures Valid(resolve) && cache.View() == Apply(cache.maxEntries, old(cache.View()), Add(hostname, addrs))
    {
      TruthfulApply(resolve, cache.maxEntries, cache.View(), Add(hostname, addrs));
      cache.Add(hostname, addrs);
    }

    /** LookupIP returns what the resolver returns, from the cache if it can. */
    method LookupIP(resolve: Resolver, hostname: string) returns (a: Answer)
      requires Valid(resolve)
      modifies cache, cache.ll
      ensures Valid(resolve) && a == resolve(hostname)
      ensures var probed := Apply(cache.maxEntries, old(cache.View()), Get(hostname));
              cache.View() ==
              if Lookup(old(cache.View()), hostname).Some? || a == NotFound || a.list == [] then probed
              else Apply(cache.maxEntries, probed, Add(hostname, a.list))
    {
      var hit := Probe(resolve, hostname);
      if hit.Some? {
        return Addrs(hit.value);
      }
      a := resolve(hostname);
      if a == NotFound {
        return;
      }
      if |a.list| > 0 {
        Store(resolve, hostname, a.list);
      }
    }
  }
}
