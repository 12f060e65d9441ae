/**
 The LRU cache of ipfilter/lru.go as a recency list of entries, most recent first: what
 each operation does to it, what a whole history of operations says about it, and
 how caches of different capacity compare on the same history.
 */
module LruSpec {
  import opened Prelude

  datatype Op<K, V> = Add(key: K, value: V) | Get(key: K) | Remove(key: K) | RemoveOldest

  predicate Has<K(==), V>(l: seq<(K, V)>, k: K) {
    exists i :: 0 <= i < |l| && l[i].0 == k
  }

  predicate Distinct<K(==), V>(l: seq<(K, V)>) {
    forall i, j :: 0 <= i < j < |l| ==> l[i].0 != l[j].0
  }

  function Without<K(==), V>(l: seq<(K, V)>, k: K): seq<(K, V)> {
    if l == [] then [] else (if l[0].0 == k then [] else [l[0]]) + Without(l[1..], k)
  }

  function Lookup<K(==), V>(l: seq<(K, V)>, k: K): Option<V> {
    if l == [] then None else if l[0].0 == k then Some(l[0].1) else Lookup(l[1..], k)
  }

  function DropLast<T>(l: seq<T>): seq<T> {
    if l == [] then [] else l[..|l| - 1]
  }

  /** Capacity 0 is no limit. */
  function Trim<K(==), V>(cap: int, l: seq<(K, V)>): seq<(K, V)> {
    if cap != 0 && |l| > cap then DropLast(l) else l
  }

  function Apply<K(==), V>(cap: int, l: seq<(K, V)>, op: Op<K, V>): seq<(K, V)> {
    match op
    case Add(k, v) => if Lookup(l, k).Some? then [(k, v)] + Without(l, k) else Trim(cap, [(k, v)] + l)
    case Get(k) => if Lookup(l, k).Some? then [(k, Lookup(l, k).value)] + Without(l, k) else l
    case Remove(k) => Without(l, k)
    case RemoveOldest => DropLast(l)
  }

  /** The entries that an operation removes without putting another in their place. */
  function Dropped<K(==), V>(cap: int, l: seq<(K, V)>, op: Op<K, V>): seq<(K, V)> {
    match op
    case Add(k, v) =>
      if Lookup(l, k).None? && cap != 0 && |l| + 1 > cap then [([(k, v)] + l)[|l|]] else []
    case Get(_) => []
    case Remove(k) => if Lookup(l, k).Some? then [(k, Lookup(l, k).value)] else []
    case RemoveOldest => if l == [] then [] else [l[|l| - 1]]
  }

  /** The list after a history of operations on a new cache. */
  function Run<K(==), V>(cap: int, ops: seq<Op<K, V>>): seq<(K, V)> {
    if ops == [] then [] else Apply(cap, Run(cap, DropLast(ops)), ops[|ops| - 1])
  }

  // ---------- lists ----------

  lemma HasStep<K, V>(l: seq<(K, V)>, k: K)
    requires l != []
    ensures Has(l, k) <==> l[0].0 == k || Has(l[1..], k)
  {
    assert forall i :: 0 < i < |l| ==> l[i] == l[1..][i - 1];
    assert forall i :: 0 <= i < |l| - 1 ==> l[1..][i] == l[i + 1];
  }

  lemma {:induction false} LookupHas<K, V>(l: seq<(K, V)>, k: K)
    ensures Lookup(l, k).Some? <==> Has(l, k)
    ensures Lookup(l, k).Some? ==> (k, Lookup(l, k).value) in l
  {
    if l != [] {
      LookupHas(l[1..], k);
      HasStep(l, k);
      assert l[0].0 == k ==> l[0] == (k, Lookup(l, k).value);
    }
  }

  /** In a list of distinct keys an entry is what its key looks up. */
  lemma {:induction false} LookupAt<K, V>(l: seq<(K, V)>, i: nat)
    requires Distinct(l) && i < |l|
    ensures Lookup(l, l[i].0) == Some(l[i].1)
  {
    if i > 0 {
      LookupAt(l[1..], i - 1);
    }
  }

  /** Each entry of Without is an entry of the list, in order, at a place not before its own. */
  lemma {:induction false} WithoutFrom<K, V>(l: seq<(K, V)>, k: K, j: nat) returns (i: nat)
    requires j < |Without(l, k)|
    ensures j <= i < |l| && l[i] == Without(l, k)[j] && l[i].0 != k
    decreases |l|
  {
    if l[0].0 == k {
      i := WithoutFrom(l[1..], k, j);
      i := i + 1;
    } else if j == 0 {
      i := 0;
    } else {
      i := WithoutFrom(l[1..], k, j - 1);
      i := i + 1;
    }
  }

  lemma {:induction false} WithoutOrder<K, V>(l: seq<(K, V)>, k: K, before: (K, K) -> bool)
    requires forall i, j :: 0 <= i < j < |l| ==> before(l[i].0, l[j].0)
    ensures forall i, j :: 0 <= i < j < |Without(l, k)| ==> before(Without(l, k)[i].0, Without(l, k)[j].0)
  {
    if l != [] {
      WithoutOrder(l[1..], k, before);
      if l[0].0 != k {
        var w := Without(l[1..], k);
        forall j | 0 <= j < |w| ensures before(l[0].0, w[j].0) {
          var i := WithoutFrom(l[1..], k, j);
          assert l[i + 1] == w[j];
        }
        assert Without(l, k) == [l[0]] + w;
      }
    }
  }

  lemma {:induction false} WithoutLength<K, V>(l: seq<(K, V)>, k: K)
    requires Distinct(l)
    ensures |Without(l, k)| == |l| - (if Has(l, k) then 1 else 0)
  {
    if l != [] {
      WithoutLength(l[1..], k);
      HasStep(l, k);
      assert l[0].0 == k ==> !Has(l[1..], k);
    }
  }

  // ---------- history ----------

  /** The last time a history adds or gets k; -1 if it never does. */
  function LastTouch<K(==), V>(ops: seq<Op<K, V>>, k: K): int {
    if ops == [] then -1
    else
      var op := ops[|ops| - 1];
      if (op.Add? || op.Get?) && op.key == k then |ops| - 1 else LastTouch(DropLast(ops), k)
  }

  /** The value of the last Add of k. */
  function LastAdded<K(==), V>(ops: seq<Op<K, V>>, k: K): Option<V> {
    if ops == [] then None
    else
      var op := ops[|ops| - 1];
      if op.Add? && op.key == k then Some(op.value) else LastAdded(DropLast(ops), k)
  }

  lemma {:induction false} LastTouchBound<K, V>(ops: seq<Op<K, V>>, k: K)
    ensures LastTouch(ops, k) < |ops|
  {
    if ops != [] {
      LastTouchBound(DropLast(ops), k);
    }
  }

  /** The list is in the order of last touch, most recent first, and holds last added values. */
  predicate Faithful<K(==), V(==)>(ops: seq<Op<K, V>>, l: seq<(K, V)>) {
    && (forall i, j :: 0 <= i < j < |l| ==> LastTouch(ops, l[i].0) > LastTouch(ops, l[j].0))
    && (forall i :: 0 <= i < |l| ==> LastAdded(ops, l[i].0) == Some(l[i].1))
  }

  predicate Fits<K, V>(cap: int, l: seq<(K, V)>) {
    cap > 0 ==> |l| <= cap
  }

  lemma HistoryOfHit<K, V>(ops: seq<Op<K, V>>, op: Op<K, V>, l: seq<(K, V)>, v: V)
    requires Faithful(ops, l)
    requires (op.Add? && op.value == v) || (op.Get? && Lookup(l, op.key) == Some(v))
    ensures Faithful(ops + [op], [(op.key, v)] + Without(l, op.key))
  {
    var k, w, ops' := op.key, Without(l, op.key), ops + [op];
    assert DropLast(ops') == ops;
    WithoutOrder(l, k, (a, b) => LastTouch(ops, a) > LastTouch(ops, b));
    forall j | 0 <= j < |w|
      ensures w[j].0 != k && LastAdded(ops, w[j].0) == Some(w[j].1) && LastTouch(ops, w[j].0) < |ops|
    {
      var i := WithoutFrom(l, k, j);
      LastTouchBound(ops, w[j].0);
    }
    if op.Get? {
      LookupHas(l, k);
    }
  }

  lemma {:induction false} WithoutAbsent<K, V>(l: seq<(K, V)>, k: K)
    requires Lookup(l, k).None?
    ensures Without(l, k) == l
  {
    if l != [] {
      WithoutAbsent(l[1..], k);
    }
  }

  lemma HistoryOfMiss<K, V>(ops: seq<Op<K, V>>, k: K, l: seq<(K, V)>)
    requires Faithful(ops, l) && Lookup(l, k).None?
    ensures Faithful(ops + [Get(k)], l)
  {
    assert DropLast(ops + [Get(k)]) == ops;
    LookupHas(l, k);
  }

  lemma HistoryOfRemoval<K, V>(ops: seq<Op<K, V>>, op: Op<K, V>, l: seq<(K, V)>)
    requires Faithful(ops, l) && (op.Remove? || op.RemoveOldest?)
    ensures Faithful(ops + [op], Apply(0, l, op))
  {
    assert DropLast(ops + [op]) == ops;
    if op.Remove? {
      WithoutOrder(l, op.key, (a, b) => LastTouch(ops, a) > LastTouch(ops, b));
      var w := Without(l, op.key);
      forall j | 0 <= j < |w| ensures LastAdded(ops, w[j].0) == Some(w[j].1) {
        var i := WithoutFrom(l, op.key, j);
      }
    }
  }

  lemma TrimHistory<K, V>(cap: int, ops: seq<Op<K, V>>, l: seq<(K, V)>)
    requires Faithful(ops, l)
    ensures Faithful(ops, Trim(cap, l))
  {
  }

  /** One operation keeps order and values. */
  lemma HistoryStep<K, V>(cap: int, ops: seq<Op<K, V>>, op: Op<K, V>, l: seq<(K, V)>)
    requires Faithful(ops, l)
    ensures Faithful(ops + [op], Apply(cap, l, op))
  {
    match op {
      case Add(k, v) =>
        HistoryOfHit(ops, op, l, v);
        if Lookup(l, k).None? {
          WithoutAbsent(l, k);
          TrimHistory(cap, ops + [op], [(k, v)] + l);
        }
      case Get(k) =>
        if Lookup(l, k).Some? {
          HistoryOfHit(ops, op, l, Lookup(l, k).value);
        } else {
          HistoryOfMiss(ops, k, l);
        }
      case _ => HistoryOfRemoval(ops, op, l);
    }
  }

  lemma FaithfulDistinct<K, V>(ops: seq<Op<K, V>>, l: seq<(K, V)>)
    requires Faithful(ops, l)
    ensures Distinct(l)
  {
  }

  lemma FitsStep<K, V>(cap: int, l: seq<(K, V)>, op: Op<K, V>)
    requires Fits(cap, l) && Distinct(l)
    ensures Fits(cap, Apply(cap, l, op))
  {
    if op.Add? || op.Get? || op.Remove? {
      WithoutLength(l, op.key);
      LookupHas(l, op.key);
    }
  }

  /** After any history: keys are distinct, a capacity is respected, the list is in the order of
      last touch, and each key holds the value of its last Add. */
  lemma {:induction false} History<K, V>(cap: int, ops: seq<Op<K, V>>)
    ensures var l := Run(cap, ops); Distinct(l) && Fits(cap, l) && Faithful(ops, l)
  {
    if ops != [] {
      var before, op := DropLast(ops), ops[|ops| - 1];
      History(cap, before);
      assert ops == before + [op];
      HistoryStep(cap, before, op, Run(cap, before));
      FitsStep(cap, Run(cap, before), op);
      FaithfulDistinct(ops, Run(cap, ops));
    }
  }

  /** A hit returns the value that was added last, whatever was evicted and added again between. */
  lemma HitIsLastAdded<K, V>(cap: int, ops: seq<Op<K, V>>, k: K)
    ensures var hit := Lookup(Run(cap, ops), k); hit.Some? ==> hit == LastAdded(ops, k)
  {
    History(cap, ops);
    LookupHas(Run(cap, ops), k);
  }

  /** A new key in a full cache evicts the key that was touched least recently, and only that. */
  lemma EvictsLeastRecent<K, V>(cap: int, ops: seq<Op<K, V>>, k: K, v: V)
    requires cap > 0 && |Run(cap, ops)| == cap && Lookup(Run(cap, ops), k).None?
    ensures var l := Run(cap, ops);
            && Run(cap, ops + [Add(k, v)]) == [(k, v)] + l[..cap - 1]
            && forall i :: 0 <= i < cap - 1 ==> LastTouch(ops, l[cap - 1].0) < LastTouch(ops, l[i].0)
  {
    History(cap, ops);
    assert DropLast(ops + [Add(k, v)]) == ops;
  }

  /** A new key evicts nothing as long as there is room for it. */
  lemma NewKeyFits<K, V>(cap: int, ops: seq<Op<K, V>>, k: K, v: V)
    requires cap == 0 || |Run(cap, ops)| < cap
    requires Lookup(Run(cap, ops), k).None?
    ensures Run(cap, ops + [Add(k, v)]) == [(k, v)] + Run(cap, ops)
  {
    assert DropLast(ops + [Add(k, v)]) == ops;
  }

  /** What an operation drops is all that leaves: a key is in the list afterwards exactly if it was
      there or is added, and is not dropped; and what is dropped was there or is added. */
  lemma DroppedIsWhatLeaves<K, V>(cap: int, l: seq<(K, V)>, op: Op<K, V>, k: K)
    requires Distinct(l)
    ensures var out := Dropped(cap, l, op);
            && |out| <= 1
            && (Has(Apply(cap, l, op), k) <==> (Has(l, k) || (op.Add? && op.key == k)) && !Has(out, k))
            && (forall e :: e in out ==> e in l || op == Add(e.0, e.1))
  {
    if Dropped(cap, l, op) != [] {
      HasOne(Dropped(cap, l, op), k);
    }
    match op {
      case Add(key, v) =>
        LookupHas(l, key);
        HasCons((key, v), l, k);
        HasCons((key, v), Without(l, key), k);
        HasWithout(l, key, k);
        if !Has(l, key) {
          HasDropLast([(key, v)] + l, k);
        }
      case Get(key) =>
        LookupHas(l, key);
        HasWithout(l, key, k);
        if Lookup(l, key).Some? {
          HasCons((key, Lookup(l, key).value), Without(l, key), k);
        }
      case Remove(key) =>
        LookupHas(l, key);
        HasWithout(l, key, k);
      case RemoveOldest => HasDropLast(l, k);
    }
  }

  lemma HasCons<K, V>(e: (K, V), l: seq<(K, V)>, k: K)
    ensures Has([e] + l, k) <==> e.0 == k || Has(l, k)
  {
    HasStep([e] + l, k);
  }

  lemma HasOne<K, V>(l: seq<(K, V)>, k: K)
    requires |l| == 1
    ensures Has(l, k) <==> l[0].0 == k
  {
    assert l[0].0 == k ==> Has(l, k);
  }

  lemma {:induction false} HasWithout<K, V>(l: seq<(K, V)>, key: K, k: K)
    ensures Has(Without(l, key), k) <==> k != key && Has(l, k)
  {
    if l != [] {
      HasWithout(l[1..], key, k);
      HasStep(l, k);
      HasCons(l[0], Without(l[1..], key), k);
      assert l[0].0 == key ==> Without(l, key) == Without(l[1..], key);
    }
  }

  lemma HasDropLast<K, V>(l: seq<(K, V)>, k: K)
    requires Distinct(l)
    ensures Has(DropLast(l), k) <==> Has(l, k) && !(l != [] && l[|l| - 1].0 == k)
  {
    if Has(l, k) && l[|l| - 1].0 != k {
      var i :| 0 <= i < |l| && l[i].0 == k;
      assert DropLast(l)[i].0 == k;
    }
  }

  // ---------- inclusion ----------

  /** a is b with some entries left out. */
  predicate Sub<T(==)>(a: seq<T>, b: seq<T>) {
    a == [] || (b != [] && ((a[0] == b[0] && Sub(a[1..], b[1..])) || Sub(a, b[1..])))
  }

  lemma {:induction false} SubShorter<T>(a: seq<T>, b: seq<T>)
    requires Sub(a, b)
    ensures |a| <= |b| && forall x :: x in a ==> x in b
  {
    if a != [] {
      if a[0] == b[0] && Sub(a[1..], b[1..]) {
        SubShorter(a[1..], b[1..]);
        assert a == [a[0]] + a[1..] && b == [b[0]] + b[1..];
      } else {
        SubShorter(a, b[1..]);
        assert b == [b[0]] + b[1..];
      }
    }
  }

  lemma {:induction false} SubWithout<K, V>(a: seq<(K, V)>, b: seq<(K, V)>, k: K)
    requires Sub(a, b)
    ensures Sub(Without(a, k), Without(b, k))
  {
    if a != [] {
      var b' := Without(b[1..], k);
      assert Without(b, k) == if b[0].0 == k then b' else [b[0]] + b';
      if a[0] == b[0] && Sub(a[1..], b[1..]) {
        SubWithout(a[1..], b[1..], k);
        assert Without(a, k) == if a[0].0 == k then Without(a[1..], k) else [a[0]] + Without(a[1..], k);
        SubMore(Without(a[1..], k), b', b[0]);
      } else {
        SubWithout(a, b[1..], k);
        SubMore(Without(a, k), b', b[0]);
      }
    }
  }

  lemma SubMore<T>(a: seq<T>, b: seq<T>, x: T)
    requires Sub(a, b)
    ensures Sub(a, [x] + b) && Sub([x] + a, [x] + b)
  {
    assert ([x] + b)[1..] == b && ([x] + a)[1..] == a;
  }

  /** Dropping the last of both keeps the relation. */
  lemma {:induction false} SubDropBoth<T>(a: seq<T>, b: seq<T>)
    requires Sub(a, b) && a != []
    ensures Sub(DropLast(a), DropLast(b))
    decreases |a| + |b|
  {
    SubShorter(a, b);
    if |a| > 1 {
      assert DropLast(b)[1..] == DropLast(b[1..]) && DropLast(a)[1..] == DropLast(a[1..]);
      if a[0] == b[0] && Sub(a[1..], b[1..]) {
        SubDropBoth(a[1..], b[1..]);
      } else {
        SubShorter(a, b[1..]);
        SubDropBoth(a, b[1..]);
      }
    }
  }

  /** So does dropping the last of a alone. */
  lemma {:induction false} SubDropLeft<T>(a: seq<T>, b: seq<T>)
    requires Sub(a, b)
    ensures Sub(DropLast(a), b)
    decreases |a| + |b|
  {
    if |a| > 1 {
      assert DropLast(a)[1..] == DropLast(a[1..]);
      if a[0] == b[0] && Sub(a[1..], b[1..]) {
        SubDropLeft(a[1..], b[1..]);
      } else {
        SubDropLeft(a, b[1..]);
      }
    }
  }

  predicate Capacities(small: int, large: int) {
    0 < small && (large == 0 || small <= large)
  }

  /** The entries of the small cache s are among those of the large cache l, in the same order, and
      l holds at most so many more as its capacity exceeds that of s. */
  predicate Included<K(==), V(==)>(small: int, large: int, s: seq<(K, V)>, l: seq<(K, V)>) {
    Sub(s, l) && (large != 0 ==> |l| - |s| <= large - small)
  }

  lemma SubLookup<K, V>(s: seq<(K, V)>, l: seq<(K, V)>, k: K)
    requires Sub(s, l) && Distinct(l) && Lookup(s, k).Some?
    ensures Lookup(l, k) == Lookup(s, k)
  {
    LookupHas(s, k);
    SubShorter(s, l);
    var i :| 0 <= i < |l| && l[i] == (k, Lookup(s, k).value);
    LookupAt(l, i);
  }

  lemma TrimIncluded<K, V>(small: int, large: int, s: seq<(K, V)>, l: seq<(K, V)>)
    requires Capacities(small, large) && Included(small, large, s, l)
    requires |s| <= small + 1 && (large != 0 ==> |l| <= large + 1)
    ensures Included(small, large, Trim(small, s), Trim(large, l))
  {
    SubShorter(s, l);
    if |s| > small {
      if large != 0 && |l| > large {
        SubDropBoth(s, l);
      } else {
        SubDropLeft(s, l);
      }
    }
  }

  /** A key that both caches hold, or only the large one, comes to the front of the large one. */
  lemma FrontIncluded<K, V>(small: int, large: int, s: seq<(K, V)>, l: seq<(K, V)>, k: K, v: V)
    requires Included(small, large, s, l) && Distinct(s) && Distinct(l) && Lookup(l, k).Some?
    ensures Lookup(s, k).Some? ==> Included(small, large, [(k, v)] + Without(s, k), [(k, v)] + Without(l, k))
    ensures Lookup(s, k).None? ==> Included(small, large, s, [(k, v)] + Without(l, k))
    ensures Lookup(s, k).None? ==> Included(small, large, [(k, v)] + s, [(k, v)] + Without(l, k))
  {
    SubWithout(s, l, k);
    SubMore(Without(s, k), Without(l, k), (k, v));
    WithoutLength(s, k);
    WithoutLength(l, k);
    LookupHas(s, k);
    LookupHas(l, k);
    if Lookup(s, k).None? {
      WithoutAbsent(s, k);
    }
  }

  lemma AddIncluded<K, V>(small: int, large: int, s: seq<(K, V)>, l: seq<(K, V)>, k: K, v: V)
    requires Capacities(small, large) && Included(small, large, s, l)
    requires Distinct(s) && Distinct(l) && Fits(small, s) && Fits(large, l)
    ensures Included(small, large, Apply(small, s, Add(k, v)), Apply(large, l, Add(k, v)))
  {
    if Lookup(l, k).Some? {
      FrontIncluded(small, large, s, l, k, v);
      if Lookup(s, k).None? {
        SubDropLeft([(k, v)] + s, [(k, v)] + Without(l, k));
        WithoutLength(l, k);
        LookupHas(l, k);
      }
    } else {
      if Lookup(s, k).Some? {
        SubLookup(s, l, k);
      }
      SubMore(s, l, (k, v));
      TrimIncluded(small, large, [(k, v)] + s, [(k, v)] + l);
    }
  }

  lemma RemoveIncluded<K, V>(small: int, large: int, s: seq<(K, V)>, l: seq<(K, V)>, k: K)
    requires Included(small, large, s, l) && Distinct(s) && Distinct(l)
    ensures Included(small, large, Without(s, k), Without(l, k))
  {
    SubWithout(s, l, k);
    WithoutLength(s, k);
    WithoutLength(l, k);
    LookupHas(s, k);
    LookupHas(l, k);
    if Lookup(s, k).Some? {
      SubLookup(s, l, k);
    }
  }

  lemma IncludedStep<K, V>(small: int, large: int, s: seq<(K, V)>, l: seq<(K, V)>, op: Op<K, V>)
    requires Capacities(small, large) && Included(small, large, s, l)
    requires Distinct(s) && Distinct(l) && Fits(small, s) && Fits(large, l)
    ensures Included(small, large, Apply(small, s, op), Apply(large, l, op))
  {
    match op {
      case Add(k, v) => AddIncluded(small, large, s, l, k, v);
      case Get(k) =>
        if Lookup(s, k).Some? {
          SubLookup(s, l, k);
        }
        if Lookup(l, k).Some? {
          FrontIncluded(small, large, s, l, k, Lookup(l, k).value);
        }
      case Remove(k) => RemoveIncluded(small, large, s, l, k);
      case RemoveOldest =>
        if s != [] {
          SubDropBoth(s, l);
          SubShorter(s, l);
        }
    }
  }

  /** Inclusion: on one and the same history the list of a smaller cache is a subsequence of that
      of a larger one, or of one without limit. */
  lemma {:induction false} Inclusion<K, V>(small: int, large: int, ops: seq<Op<K, V>>)
    requires Capacities(small, large)
    ensures Included(small, large, Run(small, ops), Run(large, ops))
  {
    if ops != [] {
      var before := DropLast(ops);
      Inclusion(small, large, before);
      History(small, before);
      History(large, before);
      IncludedStep(small, large, Run(small, before), Run(large, before), ops[|ops| - 1]);
    }
  }

  /** So every hit in the smaller cache is the same hit in the larger one. */
  lemma HitsAreShared<K, V>(small: int, large: int, ops: seq<Op<K, V>>, k: K)
    requires Capacities(small, large) && Lookup(Run(small, ops), k).Some?
    ensures Lookup(Run(large, ops), k) == Lookup(Run(small, ops), k)
  {
    Inclusion(small, large, ops);
    History(large, ops);
    SubLookup(Run(small, ops), Run(large, ops), k);
  }
}
