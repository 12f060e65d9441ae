/**
 The Cache of ipfilter/lru.go: a map from keys to the elements of a list, both changed in
 place. The container/list operations are written on a sequence of element references.
 */
module Lru {
  import opened Prelude
  import opened LruSpec

  class Element<K(==), V> {
    const key: K
    var value: V

    constructor (key: K, value: V)
      ensures this.key == key && this.value == value
    {
      this.key := key;
      this.value := value;
    }
  }

  /** A list without one of its elements. */
  function Unlink<K, V>(ll: seq<Element<K, V>>, e: Element<K, V>): seq<Element<K, V>> {
    if ll == [] then [] else if ll[0] == e then Unlink(ll[1..], e) else [ll[0]] + Unlink(ll[1..], e)
  }

  lemma {:induction false} UnlinkMembers<K, V>(ll: seq<Element<K, V>>, e: Element<K, V>)
    ensures forall j :: 0 <= j < |Unlink(ll, e)| ==> Unlink(ll, e)[j] in ll && Unlink(ll, e)[j] != e
    ensures forall i :: 0 <= i < |ll| && ll[i] != e ==> ll[i] in Unlink(ll, e)
  {
    if ll != [] {
      UnlinkMembers(ll[1..], e);
      assert ll == [ll[0]] + ll[1..];
    }
  }

  ghost function Entries<K, V>(ll: seq<Element<K, V>>): seq<(K, V)>
    reads ll
  {
    seq(|ll|, i requires 0 <= i < |ll| reads ll => (ll[i].key, ll[i].value))
  }

  ghost predicate DistinctKeys<K, V>(ll: seq<Element<K, V>>) {
    forall i, j :: 0 <= i < j < |ll| ==> ll[i].key != ll[j].key
  }

  lemma {:induction false} UnlinkDistinct<K, V>(ll: seq<Element<K, V>>, e: Element<K, V>)
    requires DistinctKeys(ll)
    ensures DistinctKeys(Unlink(ll, e))
  {
    if ll != [] {
      UnlinkDistinct(ll[1..], e);
      UnlinkMembers(ll[1..], e);
      var w := Unlink(ll[1..], e);
      assert forall j :: 0 <= j < |w| ==> w[j] in ll[1..] && w[j].key != ll[0].key;
    }
  }

  /** Unlinking an element removes the entry of its key. */
  lemma {:induction false} UnlinkEntries<K, V>(ll: seq<Element<K, V>>, e: Element<K, V>)
    requires DistinctKeys(ll) && e in ll
    ensures Entries(Unlink(ll, e)) == Without(Entries(ll), e.key)
  {
    var es := Entries(ll);
    assert es[1..] == Entries(ll[1..]);
    if ll[0] == e {
      assert e !in ll[1..];
      UnlinkAbsent(ll[1..], e);
      KeyAbsent(ll[1..], e.key);
      WithoutAbsent(es[1..], e.key);
      assert Without(es, e.key) == [] + es[1..];
    } else {
      UnlinkEntries(ll[1..], e);
      var w := Unlink(ll[1..], e);
      assert Entries([ll[0]] + w) == [es[0]] + Entries(w);
    }
  }

  lemma {:induction false} LookupElement<K, V>(ll: seq<Element<K, V>>, e: Element<K, V>)
    requires DistinctKeys(ll) && e in ll
    ensures Lookup(Entries(ll), e.key) == Some(e.value)
  {
    assert Entries(ll)[1..] == Entries(ll[1..]);
    if ll[0] != e {
      LookupElement(ll[1..], e);
    }
  }

  lemma {:induction false} UnlinkAbsent<K, V>(ll: seq<Element<K, V>>, e: Element<K, V>)
    requires e !in ll
    ensures Unlink(ll, e) == ll
  {
    if ll != [] {
      UnlinkAbsent(ll[1..], e);
    }
  }

  lemma {:induction false} KeyAbsent<K, V>(ll: seq<Element<K, V>>, k: K)
    requires forall i :: 0 <= i < |ll| ==> ll[i].key != k
    ensures Lookup(Entries(ll), k).None?
  {
    if ll != [] {
      assert Entries(ll)[1..] == Entries(ll[1..]);
      KeyAbsent(ll[1..], k);
    }
  }

  lemma ConsEntries<K, V>(e: Element<K, V>, ll: seq<Element<K, V>>)
    ensures Entries([e] + ll) == [(e.key, e.value)] + Entries(ll)
  {
  }

  class Cache<K(==), V> {
    const maxEntries: int
    /** Whether the list and the map are allocated; the zero Cache has neither. */
    var made: bool
    var ll: seq<Element<K, V>>
    var cache: map<K, Element<K, V>>
    /** Whether OnEvicted is set, and the calls that it has had. */
    const onEvicted: bool
    var evicted: seq<(K, V)>

    ghost function View(): seq<(K, V)>
      reads this, ll
    {
      Entries(ll)
    }

    /** Map and list hold the same elements, under distinct keys. */
    ghost predicate Valid()
      reads this
    {
      && (!made ==> ll == [] && cache == map[])
      && DistinctKeys(ll)
      && (forall e :: e in ll ==> e.key in cache && cache[e.key] == e)
      && (forall k :: k in cache ==> cache[k] in ll && cache[k].key == k)
    }

    constructor (maxEntries: int, onEvicted: bool)
      ensures Valid() && this.maxEntries == maxEntries && made && ll == [] && View() == []
      ensures this.onEvicted == onEvicted && evicted == []
    {
      this.maxEntries, this.onEvicted, evicted := maxEntries, onEvicted, [];
      made := true;
      ll := [];
      cache := map[];
    }

    lemma HitIsLookup(k: K)
      requires Valid()
      ensures k in cache <==> Lookup(View(), k).Some?
      ensures k in cache ==> Lookup(View(), k) == Some(cache[k].value)
    {
      if k in cache {
        LookupElement(ll, cache[k]);
      } else {
        KeyAbsent(ll, k);
      }
    }

    method RemoveElement(e: Element<K, V>)
      requires Valid() && e in ll
      modifies this`ll, this`cache, this`evicted
      ensures Valid() && View() == Without(old(View()), e.key)
      ensures forall x :: x in ll <==> x in old(ll) && x != e
      ensures evicted == old(evicted) + if onEvicted then [(e.key, e.value)] else []
    {
      UnlinkEntries(ll, e);
      UnlinkMembers(ll, e);
      UnlinkDistinct(ll, e);
      ll := Unlink(ll, e);
      cache := cache - {e.key};
      if onEvicted {
        evicted := evicted + [(e.key, e.value)];
      }
    }

    method RemoveOldest()
      requires Valid()
      modifies this`ll, this`cache, this`evicted
      ensures Valid() && View() == Apply(maxEntries, old(View()), LruSpec.RemoveOldest)
      ensures forall x :: x in ll ==> x in old(ll)
      ensures evicted == old(evicted)
                         + if onEvicted then Dropped(maxEntries, old(View()), LruSpec.RemoveOldest) else []
    {
      if !made || ll == [] {
        return;
      }
      LastIsLast(ll);
      RemoveElement(ll[|ll| - 1]);
    }

    method Remove(key: K)
      requires Valid()
      modifies this`ll, this`cache, this`evicted
      ensures Valid() && View() == Apply(maxEntries, old(View()), LruSpec.Remove(key))
      ensures evicted == old(evicted)
                         + if onEvicted then Dropped(maxEntries, old(View()), LruSpec.Remove(key)) else []
    {
      HitIsLookup(key);
      if made && key in cache {
        RemoveElement(cache[key]);
      } else {
        WithoutAbsent(View(), key);
      }
    }

    /** Bring an element to the front of the list. */
    method MoveToFront(e: Element<K, V>)
      requires Valid() && e in ll
      modifies this`ll
      ensures Valid() && View() == [(e.key, e.value)] + Without(old(View()), e.key)
      ensures ll == [e] + Unlink(old(ll), e) && forall x :: x in ll <==> x in old(ll)
    {
      UnlinkEntries(ll, e);
      UnlinkMembers(ll, e);
      UnlinkDistinct(ll, e);
      ghost var w := Unlink(ll, e);
      assert forall j :: 0 <= j < |w| ==> w[j] in ll && w[j].key != e.key;
      ll := [e] + Unlink(ll, e);
      ConsEntries(e, w);
    }

    method Get(key: K) returns (r: Option<V>)
      requires Valid()
      modifies this`ll
      ensures Valid() && View() == Apply(maxEntries, old(View()), LruSpec.Get(key))
      ensures r == Lookup(old(View()), key)
      ensures forall x :: x in ll <==> x in old(ll)
    {
      HitIsLookup(key);
      if !made {
        return None;
      }
      if key in cache {
        MoveToFront(cache[key]);
        return Some(cache[key].value);
      }
      return None;
    }

    method Update(e: Element<K, V>, value: V)
      requires Valid() && e in ll
      modifies this`ll, e
      ensures Valid() && View() == [(e.key, value)] + Without(old(View()), e.key)
      ensures forall x :: x in ll <==> x in old(ll)
    {
      ghost var w := Unlink(ll, e);
      UnlinkMembers(ll, e);
      UnlinkEntries(ll, e);
      MoveToFront(e);
      e.value := value;
      ConsEntries(e, w);
    }

    method Insert(key: K, value: V)
      requires Valid() && made && key !in cache
      modifies this`ll, this`cache, this`evicted
      ensures Valid() && View() == Trim(maxEntries, [(key, value)] + old(View()))
      ensures forall x :: x in ll ==> x in old(ll) || fresh(x)
      ensures evicted == old(evicted)
                         + if onEvicted then Dropped(maxEntries, old(View()), LruSpec.Add(key, value)) else []
    {
      HitIsLookup(key);
      var e := new Element(key, value);
      PushFront(e);
      if maxEntries != 0 && |ll| > maxEntries {
        RemoveOldest();
      }
    }

    method Add(key: K, value: V)
      requires Valid()
      modifies this, ll
      ensures Valid() && View() == Apply(maxEntries, old(View()), LruSpec.Add(key, value))
      ensures forall x :: x in ll ==> x in old(ll) || fresh(x)
      ensures evicted == old(evicted)
                         + if onEvicted then Dropped(maxEntries, old(View()), LruSpec.Add(key, value)) else []
      ensures Lookup(old(View()), key).None? && (maxEntries == 0 || |old(View())| < maxEntries) ==>
                View() == [(key, value)] + old(View()) && evicted == old(evicted)
    {
      HitIsLookup(key);
      made := true;
      if key in cache {
        Update(cache[key], value);
      } else {
        Insert(key, value);
      }
    }

    method PushFront(e: Element<K, V>)
      requires Valid() && made && e.key !in cache
      modifies this`ll, this`cache
      ensures Valid() && View() == [(e.key, e.value)] + old(View())
      ensures ll == [e] + old(ll)
    {
      ll := [e] + ll;
      cache := cache[e.key := e];
    }
  }

  /** In a list with distinct keys, removing the key of the last entry drops the last entry. */
  lemma {:induction false} LastIsLast<K, V>(ll: seq<Element<K, V>>)
    requires DistinctKeys(ll) && ll != []
    ensures Without(Entries(ll), ll[|ll| - 1].key) == DropLast(Entries(ll))
  {
    assert Entries(ll)[1..] == Entries(ll[1..]);
    if |ll| > 1 {
      assert ll[0].key != ll[|ll| - 1].key;
      LastIsLast(ll[1..]);
      assert DropLast(Entries(ll)) == [Entries(ll)[0]] + DropLast(Entries(ll[1..]));
    }
  }
}
