/**
 Which keys an LRU cache holds, said of the history alone and without a list: each key that is held knows
 the keys touched since it was, and goes when its cache has no room for one more.
 */
module LruHits {
  import opened Prelude
  import opened LruSpec

  /** Room for n entries. */
  predicate Room(cap: int, n: nat) {
    cap == 0 || n <= cap
  }

  /** The other keys that are held and were touched after k; None if k is not held itself. A key leaves when
      it is removed, when it is the oldest and the oldest is removed, and when a new key comes and the keys
      touched after it, the new one and itself are too many. */
  ghost function Newer<K(!new), V>(cap: int, ops: seq<Op<K, V>>, k: K): Option<set<K>> {
    if ops == [] then None else
    var before, op := DropLast(ops), ops[|ops| - 1];
    var was := Newer(cap, before, k);
    match op
    case Add(j, _) =>
      if j == k then (if Room(cap, 1) then Some({}) else None)
      else if was.None? then None
      else if Newer(cap, before, j).Some? || Room(cap, |was.value| + 2) then Some(was.value + {j})
      else None
    case Get(j) =>
      if was.None? then None
      else if j == k then Some({})
      else if Newer(cap, before, j).Some? then Some(was.value + {j})
      else was
    case Remove(j) => if was.None? || j == k then None else Some(was.value - {j})
    case RemoveOldest =>
      if was.Some? && exists j :: HeldOver(Newer(cap, before, j), k) then was else None
  }

  /** A key that is held, k having been touched after it. */
  predicate HeldOver<K(==)>(newer: Option<set<K>>, k: K) {
    newer.Some? && k in newer.value
  }

  // ---------- the same of a list ----------

  /** The keys in front of k. */
  function Front<K(==), V>(l: seq<(K, V)>, k: K): Option<set<K>> {
    if l == [] then None
    else if l[0].0 == k then Some({})
    else match Front(l[1..], k)
      case None => None
      case Some(s) => Some(s + {l[0].0})
  }

  lemma FrontCons<K, V>(e: (K, V), l: seq<(K, V)>, k: K)
    ensures Front([e] + l, k) == if e.0 == k then Some({})
                                 else match Front(l, k) case None => None case Some(s) => Some(s + {e.0})
  {
    assert ([e] + l)[1..] == l;
  }

  lemma {:induction false} FrontHas<K, V>(l: seq<(K, V)>, k: K)
    ensures Front(l, k).Some? <==> Lookup(l, k).Some?
    ensures Front(l, k).Some? ==> k !in Front(l, k).value && forall j :: j in Front(l, k).value ==> Has(l, j)
  {
    if l != [] {
      FrontHas(l[1..], k);
      forall j | Front(l, k).Some? && j in Front(l, k).value
        ensures Has(l, j)
      {
        HasStep(l, j);
      }
    }
  }

  lemma HeadOnce<K, V>(l: seq<(K, V)>)
    requires Distinct(l) && l != []
    ensures !Has(l[1..], l[0].0)
  {
    assert forall m :: 0 <= m < |l| - 1 ==> l[1..][m] == l[m + 1];
  }

  /** The keys in front of an entry are as many as its place says. */
  lemma {:induction false} FrontAt<K, V>(l: seq<(K, V)>, i: nat)
    requires Distinct(l) && i < |l|
    ensures var f := Front(l, l[i].0); f.Some? && |f.value| == i
  {
    if i > 0 {
      FrontAt(l[1..], i - 1);
      FrontHas(l[1..], l[i].0);
      HeadOnce(l);
    }
  }

  lemma {:induction false} FrontWithout<K, V>(l: seq<(K, V)>, j: K, k: K)
    ensures Front(Without(l, j), k) == if j == k then None
                                       else match Front(l, k) case None => None case Some(s) => Some(s - {j})
  {
    if l != [] {
      FrontWithout(l[1..], j, k);
      var head, rest := l[0].0, Front(l[1..], k);
      if head == j {
        assert Without(l, j) == Without(l[1..], j);
        assert rest.Some? ==> (rest.value + {head}) - {j} == rest.value - {j};
      } else {
        FrontCons(l[0], Without(l[1..], j), k);
        assert rest.Some? ==> (rest.value + {head}) - {j} == (rest.value - {j}) + {head};
        assert {} - {j} == {};
      }
    }
  }

  /** Dropping the last entry touches no key but its own. */
  lemma {:induction false} FrontDropLast<K, V>(l: seq<(K, V)>, k: K)
    requires Distinct(l) && l != []
    ensures Front(DropLast(l), k) == if l[|l| - 1].0 == k then None else Front(l, k)
  {
    if |l| == 1 {
      assert DropLast(l) == [] && l[1..] == [];
    } else {
      FrontDropLast(l[1..], k);
      assert DropLast(l) == [l[0]] + DropLast(l[1..]);
      FrontCons(l[0], DropLast(l[1..]), k);
      assert l[0].0 != l[|l| - 1].0;
    }
  }

  /** A key is in front of the last, and of any other, exactly if it is not the last itself. */
  lemma InFront<K, V>(l: seq<(K, V)>, k: K, j: K)
    requires Distinct(l) && Front(l, k).Some?
    ensures l != []
    ensures var last := l[|l| - 1].0;
            && (k != last ==> HeldOver(Front(l, last), k))
            && (k == last ==> !HeldOver(Front(l, j), k))
  {
    FrontHas(l, k);
    LookupHas(l, k);
    var i :| 0 <= i < |l| && l[i].0 == k;
    if i < |l| - 1 {
      EarlierInFront(l, i, |l| - 1);
    }
    NoneBehindLast(l, j);
  }

  lemma {:induction false} EarlierInFront<K, V>(l: seq<(K, V)>, i: nat, m: nat)
    requires Distinct(l) && i < m < |l|
    ensures HeldOver(Front(l, l[m].0), l[i].0)
  {
    if i == 0 {
      FrontAt(l[1..], m - 1);
    } else {
      EarlierInFront(l[1..], i - 1, m - 1);
    }
  }

  lemma {:induction false} NoneBehindLast<K, V>(l: seq<(K, V)>, j: K)
    requires Distinct(l) && l != []
    ensures !HeldOver(Front(l, j), l[|l| - 1].0)
  {
    if |l| > 1 && l[0].0 != j {
      NoneBehindLast(l[1..], j);
    } else if |l| == 1 {
      assert Front(l[1..], j).None?;
    }
  }

  // ---------- the cache holds what the history says ----------

  lemma {:induction false} NegativeIsEmpty<K, V>(cap: int, ops: seq<Op<K, V>>)
    requires cap < 0
    ensures Run(cap, ops) == []
  {
    if ops != [] {
      NegativeIsEmpty(cap, DropLast(ops));
    }
  }

  /** The list says of every key what the history says. */
  ghost predicate Agrees<K(!new), V>(cap: int, ops: seq<Op<K, V>>, l: seq<(K, V)>) {
    forall k :: Newer(cap, ops, k) == Front(l, k)
  }

  lemma HitAgrees<K, V>(l: seq<(K, V)>, j: K, v: V, k: K)
    ensures Front([(j, v)] + Without(l, j), k) ==
            if j == k then Some({}) else match Front(l, k) case None => None case Some(s) => Some(s + {j})
  {
    FrontCons((j, v), Without(l, j), k);
    FrontWithout(l, j, k);
    if j != k && Front(l, k).Some? {
      assert Front(l, k).value - {j} + {j} == Front(l, k).value + {j};
    }
  }

  /** A new key, when l has at most as many entries as the capacity allows. */
  lemma NewAgrees<K, V>(cap: int, l: seq<(K, V)>, j: K, v: V, k: K)
    requires Distinct(l) && Lookup(l, j).None? && Fits(cap, l) && (cap < 0 ==> l == [])
    ensures Front(Trim(cap, [(j, v)] + l), k) ==
            if j == k then (if Room(cap, 1) then Some({}) else None)
            else match Front(l, k)
              case None => None
              case Some(s) => if Room(cap, |s| + 2) then Some(s + {j}) else None
  {
    var l' := [(j, v)] + l;
    FrontCons((j, v), l, k);
    LookupHas(l, j);
    assert Distinct(l');
    FrontDropLast(l', k);
    if j != k && Front(l, k).Some? {
      FrontHas(l, k);
      LookupHas(l, k);
      var i :| 0 <= i < |l| && l[i].0 == k;
      FrontAt(l, i);
      assert l'[i + 1].0 == k;
    }
  }

  lemma AddAgrees<K(!new), V>(cap: int, ops: seq<Op<K, V>>, l: seq<(K, V)>, j: K, v: V, k: K)
    requires Agrees(cap, ops, l) && Distinct(l) && Fits(cap, l) && (cap < 0 ==> l == [])
    ensures Newer(cap, ops + [Add(j, v)], k) == Front(Apply(cap, l, Add(j, v)), k)
  {
    assert DropLast(ops + [Add(j, v)]) == ops;
    assert Newer(cap, ops, k) == Front(l, k) && Newer(cap, ops, j) == Front(l, j);
    FrontHas(l, j);
    if Lookup(l, j).Some? {
      HitAgrees(l, j, v, k);
      HeldFits(cap, l, j);
    } else {
      NewAgrees(cap, l, j, v, k);
    }
  }

  lemma HeldFits<K, V>(cap: int, l: seq<(K, V)>, j: K)
    requires Lookup(l, j).Some? && Fits(cap, l) && (cap < 0 ==> l == [])
    ensures Room(cap, 1)
  {
  }

  lemma GetAgrees<K(!new), V>(cap: int, ops: seq<Op<K, V>>, l: seq<(K, V)>, j: K, k: K)
    requires Agrees(cap, ops, l)
    ensures Newer(cap, ops + [Get(j)], k) == Front(Apply(cap, l, Get(j)), k)
  {
    assert DropLast(ops + [Get(j)]) == ops;
    assert Newer(cap, ops, k) == Front(l, k) && Newer(cap, ops, j) == Front(l, j);
    FrontHas(l, j);
    if Lookup(l, j).Some? {
      HitAgrees(l, j, Lookup(l, j).value, k);
    }
  }

  lemma RemoveAgrees<K(!new), V>(cap: int, ops: seq<Op<K, V>>, l: seq<(K, V)>, j: K, k: K)
    requires Agrees(cap, ops, l)
    ensures Newer(cap, ops + [Remove(j)], k) == Front(Apply(cap, l, Remove(j)), k)
  {
    assert DropLast(ops + [Remove(j)]) == ops;
    assert Newer(cap, ops, k) == Front(l, k);
    FrontWithout(l, j, k);
  }

  lemma RemoveOldestAgrees<K(!new), V>(cap: int, ops: seq<Op<K, V>>, l: seq<(K, V)>, k: K)
    requires Agrees(cap, ops, l) && Distinct(l)
    ensures Newer(cap, ops + [RemoveOldest], k) == Front(Apply(cap, l, RemoveOldest), k)
  {
    assert DropLast(ops + [RemoveOldest]) == ops;
    assert Newer(cap, ops, k) == Front(l, k);
    if l != [] {
      FrontDropLast(l, k);
      if Front(l, k).Some? {
        var last := l[|l| - 1].0;
        InFront(l, k, k);
        assert Newer(cap, ops, last) == Front(l, last);
        forall j | HeldOver(Newer(cap, ops, j), k)
          ensures k != last
        {
          assert Newer(cap, ops, j) == Front(l, j);
          InFront(l, k, j);
        }
      }
    }
  }

  /** What the cache holds, and in what order: a key is held exactly when the history says so, behind exactly
      the keys touched since. */
  lemma {:induction false} HeldExactly<K(!new), V>(cap: int, ops: seq<Op<K, V>>)
    ensures forall k :: Newer(cap, ops, k) == Front(Run(cap, ops), k)
    ensures forall k :: Newer(cap, ops, k).Some? <==> Lookup(Run(cap, ops), k).Some?
  {
    var l := Run(cap, ops);
    if ops != [] {
      var before, op := DropLast(ops), ops[|ops| - 1];
      var was := Run(cap, before);
      HeldExactly<K, V>(cap, before);
      History(cap, before);
      if cap < 0 {
        NegativeIsEmpty(cap, before);
      }
      assert ops == before + [op];
      assert Agrees(cap, before, was);
      forall k
        ensures Newer(cap, ops, k) == Front(l, k)
      {
        match op {
          case Add(j, v) => AddAgrees(cap, before, was, j, v, k);
          case Get(j) => GetAgrees(cap, before, was, j, k);
          case Remove(j) => RemoveAgrees(cap, before, was, j, k);
          case RemoveOldest => RemoveOldestAgrees(cap, before, was, k);
        }
      }
    }
    forall k
      ensures Newer(cap, ops, k).Some? <==> Lookup(l, k).Some?
    {
      FrontHas(l, k);
    }
  }

  // ---------- histories of Add and Get: counting ----------

  /** Operation i touches j: it adds it, or gets it while it is held. */
  predicate Touches<K(==), V>(cap: int, ops: seq<Op<K, V>>, i: nat, j: K)
    requires i < |ops|
  {
    match ops[i]
    case Add(a, _) => a == j
    case Get(a) => a == j && Lookup(Run(cap, ops[..i]), j).Some?
    case _ => false
  }

  predicate AddsAndGets<K, V>(ops: seq<Op<K, V>>) {
    forall i :: 0 <= i < |ops| ==> ops[i].Add? || ops[i].Get?
  }

  /** The other keys that are touched behind operation t. */
  function Others<K(==), V>(cap: int, ops: seq<Op<K, V>>, t: int, k: K): set<K>
    requires AddsAndGets(ops)
  {
    set i | 0 <= i < |ops| && t < i && ops[i].key != k && Touches(cap, ops, i, ops[i].key) :: ops[i].key
  }

  /** The last operation that touches k; -1 if none does. */
  function LastTouchOf<K(==), V>(cap: int, ops: seq<Op<K, V>>, k: K): int {
    if ops == [] then -1
    else if Touches(cap, ops, |ops| - 1, k) then |ops| - 1
    else LastTouchOf(cap, DropLast(ops), k)
  }

  lemma TouchesBefore<K, V>(cap: int, ops: seq<Op<K, V>>, op: Op<K, V>, i: nat, j: K)
    requires i < |ops|
    ensures Touches(cap, ops + [op], i, j) <==> Touches(cap, ops, i, j)
  {
    assert (ops + [op])[..i] == ops[..i];
  }

  lemma {:induction false} LastTouchIsLast<K, V>(cap: int, ops: seq<Op<K, V>>, k: K)
    ensures var t := LastTouchOf(cap, ops, k);
            && t < |ops| && (t >= 0 ==> Touches(cap, ops, t, k))
            && forall i :: 0 <= i < |ops| && t < i ==> !Touches(cap, ops, i, k)
  {
    if ops != [] {
      var before, op := DropLast(ops), ops[|ops| - 1];
      assert ops == before + [op];
      LastTouchIsLast(cap, before, k);
      forall i | 0 <= i < |before|
        ensures Touches(cap, ops, i, k) <==> Touches(cap, before, i, k)
      {
        TouchesBefore(cap, before, op, i, k);
      }
    }
  }

  lemma OthersSnoc<K, V>(cap: int, ops: seq<Op<K, V>>, op: Op<K, V>, t: int, k: K)
    requires (op.Add? || op.Get?) && AddsAndGets(ops + [op]) && t < |ops|
    ensures AddsAndGets(ops)
    ensures Others(cap, ops + [op], t, k) ==
            Others(cap, ops, t, k)
            + if op.key != k && Touches(cap, ops + [op], |ops|, op.key) then {op.key} else {}
  {
    var ops' := ops + [op];
    assert forall i :: 0 <= i < |ops| ==> ops'[i] == ops[i];
    forall i | 0 <= i < |ops|
      ensures Touches(cap, ops', i, ops[i].key) <==> Touches(cap, ops, i, ops[i].key)
    {
      TouchesBefore(cap, ops, op, i, ops[i].key);
    }
    assert ops'[|ops|] == op;
  }

  /** What is in front of a key that is held is held, and the two fit in the cache. */
  lemma NewerFits<K(!new), V>(cap: int, ops: seq<Op<K, V>>, k: K)
    requires cap >= 0 && Newer(cap, ops, k).Some?
    ensures var s := Newer(cap, ops, k).value;
            Room(cap, |s| + 1) && forall j :: j in s ==> Newer(cap, ops, j).Some?
  {
    var l := Run(cap, ops);
    HeldExactly<K, V>(cap, ops);
    History(cap, ops);
    FrontHas(l, k);
    LookupHas(l, k);
    var i :| 0 <= i < |l| && l[i].0 == k;
    FrontAt(l, i);
    forall j | j in Newer(cap, ops, k).value
      ensures Newer(cap, ops, j).Some?
    {
      LookupHas(l, j);
    }
  }

  lemma Grows<K>(s: set<K>, j: K)
    ensures |s| <= |s + {j}| <= |s| + 1
    ensures j !in s ==> |s + {j}| == |s| + 1
  {
    if j in s {
      assert s + {j} == s;
    }
  }

  /** A key that was touched, with these others behind it. */
  function Counted<K>(cap: int, t: int, others: set<K>): Option<set<K>> {
    if t >= 0 && Room(cap, |others| + 1) then Some(others) else None
  }

  /** One more key is touched. */
  lemma CountedMore<K(!new), V>(cap: int, ops: seq<Op<K, V>>, op: Op<K, V>, t: int, others: set<K>, k: K)
    requires cap >= 0 && (op.Add? || op.Get?) && op.key != k
    requires Newer(cap, ops, k) == Counted(cap, t, others)
    ensures Newer(cap, ops + [op], k) ==
            Counted(cap, t, others + if op.Add? || Newer(cap, ops, op.key).Some? then {op.key} else {})
  {
    var ops', j := ops + [op], op.key;
    assert DropLast(ops') == ops;
    Grows(others, j);
    assert others + {} == others;
    if Newer(cap, ops, k).Some? {
      NewerFits(cap, ops, k);
      if Newer(cap, ops', k).Some? {
        NewerFits(cap, ops', k);
      }
    }
  }

  lemma TouchesLast<K(!new), V>(cap: int, ops: seq<Op<K, V>>, op: Op<K, V>)
    requires op.Add? || op.Get?
    ensures Touches(cap, ops + [op], |ops|, op.key) <==> op.Add? || Newer(cap, ops, op.key).Some?
  {
    HeldExactly<K, V>(cap, ops);
    assert (ops + [op])[..|ops|] == ops;
  }

  lemma {:induction false} CountedExactly<K(!new), V>(cap: int, ops: seq<Op<K, V>>, k: K)
    requires cap >= 0 && AddsAndGets(ops)
    ensures var t := LastTouchOf(cap, ops, k); Newer(cap, ops, k) == Counted(cap, t, Others(cap, ops, t, k))
  {
    if ops != [] {
      var before, op := DropLast(ops), ops[|ops| - 1];
      assert ops == before + [op];
      CountedExactly(cap, before, k);
      LastTouchIsLast(cap, before, k);
      TouchesLast(cap, before, op);
      var t := LastTouchOf(cap, before, k);
      OthersSnoc(cap, before, op, t, k);
      if op.key != k {
        CountedMore(cap, before, op, t, Others(cap, before, t, k), k);
      } else if Touches(cap, ops, |before|, k) {
        assert Others(cap, ops, |before|, k) == {};
      }
    }
  }

  /** Over Adds, and Gets, of which only the hits touch: a key is held exactly if some operation touched it
      and fewer other keys than the capacity were touched behind that. */
  lemma HitExactly<K(!new), V>(cap: int, ops: seq<Op<K, V>>, k: K)
    requires cap >= 0 && AddsAndGets(ops)
    ensures Lookup(Run(cap, ops), k).Some? <==>
            exists t :: 0 <= t < |ops| && Touches(cap, ops, t, k) && (cap == 0 || |Others(cap, ops, t, k)| < cap)
  {
    HeldExactly<K, V>(cap, ops);
    CountedExactly(cap, ops, k);
    LastTouchIsLast(cap, ops, k);
    var last := LastTouchOf(cap, ops, k);
    forall t | 0 <= t < |ops| && Touches(cap, ops, t, k)
      ensures last >= t && |Others(cap, ops, last, k)| <= |Others(cap, ops, t, k)|
    {
      assert last >= t;
      Fewer(Others(cap, ops, last, k), Others(cap, ops, t, k));
    }
  }

  lemma {:induction false} Fewer<K>(a: set<K>, b: set<K>)
    requires a <= b
    ensures |a| <= |b|
    decreases b
  {
    if b != {} {
      var x :| x in b;
      Fewer(a - {x}, b - {x});
      if x !in a {
        assert a - {x} == a;
      }
    }
  }

  /** The other keys that are added behind operation t, in a history of Adds. */
  function AddedBehind<K(==), V>(ops: seq<Op<K, V>>, t: nat, k: K): set<K>
    requires forall i :: 0 <= i < |ops| ==> ops[i].Add?
  {
    set i | t < i < |ops| && ops[i].key != k :: ops[i].key
  }

  /** Over Adds alone: a key is held exactly if it was added and fewer other keys than the capacity since. */
  lemma AddedExactly<K(!new), V>(cap: int, ops: seq<Op<K, V>>, k: K)
    requires cap >= 0 && forall i :: 0 <= i < |ops| ==> ops[i].Add?
    ensures Lookup(Run(cap, ops), k).Some? <==>
            exists t :: 0 <= t < |ops| && ops[t].key == k && (cap == 0 || |AddedBehind(ops, t, k)| < cap)
  {
    HitExactly(cap, ops, k);
    forall t | 0 <= t < |ops|
      ensures Others(cap, ops, t, k) == AddedBehind(ops, t, k)
      ensures Touches(cap, ops, t, k) <==> ops[t].key == k
    {
    }
    if t :| 0 <= t < |ops| && ops[t].key == k && (cap == 0 || |AddedBehind(ops, t, k)| < cap) {
      assert Touches(cap, ops, t, k);
    }
  }
}
