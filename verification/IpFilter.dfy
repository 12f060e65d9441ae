/**
 The IP filter of ipfilter/iplist.go: a list of networks indexed by the first one or two bytes
 of their address, against the plain scan of the list. IPNet.Contains and IPMask.Size, of Go's
 package net, are written out on bytes.
 */
module IpFilter {
  import opened Prelude

  type Addr = Octets

  datatype Net = Net(ip: Addr, mask: Addr)

  // ---------- package net ----------

  predicate IsMapped(ip: Addr) {
    |ip| == 16 && (forall i :: 0 <= i < 10 ==> ip[i] == 0) && ip[10] == 0xff && ip[11] == 0xff
  }

  /** The address in 4 bytes if it has such a form, as To4 gives it, or else as it is. */
  function Normal(ip: Addr): (r: Addr)
    ensures IsMapped(ip) ==> |r| == 4
    ensures !IsMapped(ip) ==> r == ip
  {
    if IsMapped(ip) then ip[12..] else ip
  }

  /** The number and mask that Contains compares with; None where it has neither. */
  function NumberAndMask(n: Net): (r: Option<(Addr, Addr)>)
    ensures r.Some? ==> |r.value.0| == |r.value.1| && |r.value.0| in {4, 16}
  {
    var number := Normal(n.ip);
    if |number| != 4 && |number| != 16 then None
    else if |n.mask| == |number| then Some((number, n.mask))
    else if |n.mask| == 16 && |number| == 4 then Some((number, n.mask[12..]))
    else None
  }

  predicate Contains(n: Net, ip: Addr) {
    var x := Normal(ip);
    match NumberAndMask(n)
    case None => x == []
    case Some((number, mask)) =>
      |x| == |number| && forall i :: 0 <= i < |x| ==> number[i] & mask[i] == x[i] & mask[i]
  }

  /** The ones of a byte that is ones and then zeros. */
  function LeadingOnes(v: bv8): Option<nat> {
    if v == 0xff then Some(8) else if v == 0xfe then Some(7) else if v == 0xfc then Some(6)
    else if v == 0xf8 then Some(5) else if v == 0xf0 then Some(4) else if v == 0xe0 then Some(3)
    else if v == 0xc0 then Some(2) else if v == 0x80 then Some(1) else if v == 0 then Some(0)
    else None
  }

  /** The length of a mask that is ones and then zeros. */
  function MaskLength(mask: Addr): Option<nat> {
    if mask == [] then Some(0)
    else if mask[0] == 0xff then
      match MaskLength(mask[1..])
      case None => None
      case Some(n) => Some(n + 8)
    else if forall i :: 1 <= i < |mask| ==> mask[i] == 0 then LeadingOnes(mask[0])
    else None
  }

  /** The ones of Mask.Size: 0 for a mask of any other form. */
  function Ones(mask: Addr): nat {
    match MaskLength(mask)
    case None => 0
    case Some(n) => n
  }

  // ---------- the index ----------

  /** The keys of the two indexes: the first byte, and the first two as a big-endian number. */
  function Prefix1(ip: Addr): byte
    requires |ip| >= 1
  {
    ip[0] as int
  }

  function BigEndian(hi: byte, lo: byte): uint16 {
    (hi as int) * 256 + lo as int
  }

  function Prefix2(ip: Addr): uint16
    requires |ip| >= 2
  {
    BigEndian(ip[0] as int, ip[1] as int)
  }

  lemma ByteIsExact(a: bv8, b: bv8)
    ensures a as int == b as int <==> a == b
  {
  }

  lemma BigEndianIsExact(a: byte, b: byte, c: byte, d: byte)
    ensures BigEndian(a, b) == BigEndian(c, d) <==> a == c && b == d
  {
  }

  /** Two addresses have the same keys exactly when they have the same bytes there. */
  lemma PrefixesAreExact(a: Addr, b: Addr)
    requires |a| >= 2 && |b| >= 2
    ensures Prefix1(a) == Prefix1(b) <==> a[0] == b[0]
    ensures Prefix2(a) == Prefix2(b) <==> a[0] == b[0] && a[1] == b[1]
  {
    ByteIsExact(a[0], b[0]);
    ByteIsExact(a[1], b[1]);
    BigEndianIsExact(a[0] as int, a[1] as int, b[0] as int, b[1] as int);
  }

  /** Where a network is kept: in the list without index, or under a key of one of the two maps. */
  datatype Slot = Rest | First(prefix1: byte) | Second(prefix2: uint16)

  /** The address is long enough for the index that its mask asks for. */
  predicate Loadable(n: Net) {
    (Ones(n.mask) >= 8 ==> |n.ip| >= 1) && (Ones(n.mask) >= 16 ==> |n.ip| >= 2)
  }

  function SlotOf(n: Net): Slot
    requires Loadable(n)
  {
    var ones := Ones(n.mask);
    if ones < 8 then Rest
    else if ones < 16 then First(Prefix1(n.ip))
    else Second(Prefix2(n.ip))
  }

  datatype Filter = Filter(rest: seq<Net>, idx1: map<byte, seq<Net>>, idx2: map<uint16, seq<Net>>)

  /** The list of a slot; a key that is not in its map has the empty list. */
  function ListAt(f: Filter, slot: Slot): seq<Net> {
    match slot
    case Rest => f.rest
    case First(k) => if k in f.idx1 then f.idx1[k] else []
    case Second(k) => if k in f.idx2 then f.idx2[k] else []
  }

  predicate AllLoadable(nets: seq<Net>) {
    forall i :: 0 <= i < |nets| ==> Loadable(nets[i])
  }

  /** The networks of a list that belong in a slot, in order. */
  function Select(nets: seq<Net>, slot: Slot): seq<Net>
    requires AllLoadable(nets)
  {
    if nets == [] then []
    else
      var last := nets[|nets| - 1];
      Select(nets[..|nets| - 1], slot) + if SlotOf(last) == slot then [last] else []
  }

  /** Each list of the filter holds exactly the networks of its slot. */
  ghost predicate Indexes(f: Filter, nets: seq<Net>)
    requires AllLoadable(nets)
  {
    forall slot :: ListAt(f, slot) == Select(nets, slot)
  }

  lemma SelectSnoc(nets: seq<Net>, n: Net, slot: Slot)
    requires AllLoadable(nets) && Loadable(n)
    ensures AllLoadable(nets + [n])
    ensures Select(nets + [n], slot) == if SlotOf(n) == slot then Select(nets, slot) + [n] else Select(nets, slot)
  {
    assert (nets + [n])[..|nets|] == nets;
    assert Select(nets, slot) + [] == Select(nets, slot);
  }

  /** Append a network to a list. */
  function Append(f: Filter, slot: Slot, n: Net): Filter {
    match slot
    case Rest => f.(rest := f.rest + [n])
    case First(k) => f.(idx1 := f.idx1[k := ListAt(f, slot) + [n]])
    case Second(k) => f.(idx2 := f.idx2[k := ListAt(f, slot) + [n]])
  }

  lemma AppendTouchesOne(f: Filter, slot: Slot, n: Net, other: Slot)
    ensures ListAt(Append(f, slot, n), other) == if other == slot then ListAt(f, slot) + [n] else ListAt(f, other)
  {
  }

  /** Appending a network to the list of its slot keeps the index. */
  lemma IndexMore(f: Filter, nets: seq<Net>, n: Net)
    requires AllLoadable(nets) && Loadable(n) && Indexes(f, nets)
    ensures AllLoadable(nets + [n]) && Indexes(Append(f, SlotOf(n), n), nets + [n])
  {
    SelectSnoc(nets, n, Rest);
    forall slot ensures ListAt(Append(f, SlotOf(n), n), slot) == Select(nets + [n], slot) {
      SelectSnoc(nets, n, slot);
      AppendTouchesOne(f, SlotOf(n), n, slot);
    }
  }

  /** The indexing loop of ReadIPList. */
  method Load(nets: seq<Net>) returns (f: Filter)
    requires AllLoadable(nets)
    ensures Indexes(f, nets)
  {
    f := Filter([], map[], map[]);
    for i := 0 to |nets|
      invariant Indexes(f, nets[..i])
    {
      var n := nets[i];
      IndexMore(f, nets[..i], n);
      assert nets[..i + 1] == nets[..i] + [n];
      var ones := Ones(n.mask);
      if ones < 8 {
        f := Append(f, Rest, n);
      } else if ones < 16 {
        f := Append(f, First(Prefix1(n.ip)), n);
      } else {
        f := Append(f, Second(Prefix2(n.ip)), n);
      }
    }
    assert nets[..|nets|] == nets;
  }

  /** ListConatins: some network of the list contains ip. */
  method ListContains(list: seq<Net>, ip: Addr) returns (b: bool)
    ensures b <==> Scan(list, ip)
  {
    for i := 0 to |list|
      invariant forall j :: 0 <= j < i ==> !Contains(list[j], ip)
    {
      if Contains(list[i], ip) {
        return true;
      }
    }
    return false;
  }

  predicate Scan(list: seq<Net>, ip: Addr) {
    exists i :: 0 <= i < |list| && Contains(list[i], ip)
  }

  /** What a query looks through. */
  predicate Query(f: Filter, ip: Addr)
    requires |ip| >= 2
  {
    var x := Normal(ip);
    Scan(ListAt(f, Second(Prefix2(x))), x) || Scan(ListAt(f, First(Prefix1(x))), x) || Scan(ListAt(f, Rest), x)
  }

  method Contain(f: Filter, ip: Addr) returns (b: bool)
    requires |ip| >= 2
    ensures b <==> Query(f, ip)
  {
    var x := Normal(ip);
    var prefix2 := Prefix2(x);
    if prefix2 in f.idx2 {
      b := ListContains(f.idx2[prefix2], x);
      if b {
        return;
      }
    }
    var prefix1 := Prefix1(x);
    if prefix1 in f.idx1 {
      b := ListContains(f.idx1[prefix1], x);
      if b {
        return;
      }
    }
    b := ListContains(f.rest, x);
  }

  // ---------- the index agrees with the scan ----------

  /** The bytes that the index goes by are bytes that Contains compares in full. */
  predicate Safe(n: Net)
    requires Loadable(n)
  {
    match NumberAndMask(n)
    case None => true
    case Some((number, mask)) =>
      && (Ones(n.mask) >= 8 ==> mask[0] == 0xff && number[0] == n.ip[0])
      && (Ones(n.mask) >= 16 ==> mask[1] == 0xff && number[1] == n.ip[1])
  }

  lemma FullMask(a: bv8, b: bv8)
    requires a & 0xff == b & 0xff
    ensures a == b
  {
  }

  lemma NormalTwice(ip: Addr)
    ensures Normal(Normal(ip)) == Normal(ip)
  {
  }

  lemma {:induction false} SelectMembers(nets: seq<Net>, slot: Slot, n: Net)
    requires AllLoadable(nets)
    ensures n in Select(nets, slot) <==> n in nets && SlotOf(n) == slot
  {
    if nets != [] {
      SelectMembers(nets[..|nets| - 1], slot, n);
      assert nets == nets[..|nets| - 1] + [nets[|nets| - 1]];
    }
  }

  /** A byte under a full mask byte is compared in full. */
  lemma ComparedInFull(n: Net, x: Addr, i: nat)
    requires Loadable(n) && Contains(n, x) && Normal(x) == x && i < |x|
    ensures NumberAndMask(n).Some?
    ensures var (number, mask) := NumberAndMask(n).value;
            i < |number| && i < |mask| && (mask[i] == 0xff ==> number[i] == x[i])
  {
    var (number, mask) := NumberAndMask(n).value;
    assert number[i] & mask[i] == x[i] & mask[i];
    if mask[i] == 0xff {
      FullMask(number[i], x[i]);
    }
  }

  /** An address in a safe network leads to the slot of the network. */
  lemma LeadsToSlot(n: Net, x: Addr)
    requires Loadable(n) && Safe(n) && Contains(n, x) && Normal(x) == x && |x| >= 2
    ensures SlotOf(n) in {Rest, First(Prefix1(x)), Second(Prefix2(x))}
  {
    ComparedInFull(n, x, 0);
    ComparedInFull(n, x, 1);
  }

  /** A network that contains ip is in one of the lists that the query looks through. */
  lemma FoundByIndex(f: Filter, nets: seq<Net>, n: Net, ip: Addr)
    requires AllLoadable(nets) && Indexes(f, nets) && n in nets && Safe(n)
    requires |ip| >= 2 && Contains(n, Normal(ip))
    ensures Query(f, ip)
  {
    NormalTwice(ip);
    LeadsToSlot(n, Normal(ip));
    SelectMembers(nets, SlotOf(n), n);
    assert Scan(ListAt(f, SlotOf(n)), Normal(ip));
  }

  lemma ScanMembers(list: seq<Net>, nets: seq<Net>, ip: Addr)
    requires Scan(list, ip) && forall n :: n in list ==> n in nets
    ensures Scan(nets, ip)
  {
    var i :| 0 <= i < |list| && Contains(list[i], ip);
    assert list[i] in nets;
  }

  lemma FoundByScan(f: Filter, nets: seq<Net>, ip: Addr)
    requires AllLoadable(nets) && Indexes(f, nets) && |ip| >= 2 && Query(f, ip)
    ensures Scan(nets, Normal(ip))
  {
    var x := Normal(ip);
    var slot := if Scan(ListAt(f, Second(Prefix2(x))), x) then Second(Prefix2(x))
                else if Scan(ListAt(f, First(Prefix1(x))), x) then First(Prefix1(x)) else Rest;
    forall n | n in Select(nets, slot) ensures n in nets {
      SelectMembers(nets, slot, n);
    }
    ScanMembers(Select(nets, slot), nets, x);
  }

  lemma ScanNormal(nets: seq<Net>, ip: Addr)
    ensures Scan(nets, Normal(ip)) <==> Scan(nets, ip)
  {
    NormalTwice(ip);
    assert forall i :: 0 <= i < |nets| ==> (Contains(nets[i], Normal(ip)) <==> Contains(nets[i], ip));
  }

  /** For a list of safe networks the index and the scan give the same answer to every query. */
  lemma IndexAgreesWithScan(f: Filter, nets: seq<Net>, ip: Addr)
    requires AllLoadable(nets) && Indexes(f, nets) && |ip| >= 2
    requires forall i :: 0 <= i < |nets| ==> Safe(nets[i])
    ensures Query(f, ip) <==> Scan(nets, ip)
  {
    ScanNormal(nets, ip);
    if Query(f, ip) {
      FoundByScan(f, nets, ip);
    }
    if Scan(nets, ip) {
      var i :| 0 <= i < |nets| && Contains(nets[i], Normal(ip));
      FoundByIndex(f, nets, nets[i], ip);
    }
  }

  /** A mask of 8 or more ones begins with a full byte; one of 16 or more with two. */
  lemma OnesLead(mask: Addr)
    ensures Ones(mask) >= 8 ==> |mask| >= 1 && mask[0] == 0xff
    ensures Ones(mask) >= 16 ==> |mask| >= 2 && mask[1] == 0xff
  {
    if mask != [] && mask[0] == 0xff && mask[1..] != [] {
      assert MaskLength(mask).Some? ==> MaskLength(mask).value == MaskLength(mask[1..]).value + 8;
      assert mask[1..][0] == mask[1];
    }
  }

  /** Networks in the usual forms are safe: address and mask of one length, not an IPv4 address in 16 bytes. */
  lemma UsualFormsAreSafe(n: Net)
    requires |n.ip| == |n.mask| && |n.ip| in {4, 16} && !IsMapped(n.ip)
    ensures Loadable(n) && Safe(n)
  {
    OnesLead(n.mask);
  }

  // ---------- and only then ----------

  /** A byte that m does not tell from a. */
  lemma Flip(a: bv8, m: bv8) returns (b: bv8)
    requires m != 0xff
    ensures b != a && a & m == b & m
  {
    b := a ^ !m;
  }

  lemma AloneInSlot(f: Filter, n: Net, ip: Addr)
    requires Loadable(n) && AllLoadable([n]) && Indexes(f, [n]) && |ip| == 4
    requires SlotOf(n) !in {Rest, First(Prefix1(ip)), Second(Prefix2(ip))}
    ensures !Query(f, ip)
  {
    assert [] + [n] == [n];
    SelectSnoc([], n, Rest);
    SelectSnoc([], n, First(Prefix1(ip)));
    SelectSnoc([], n, Second(Prefix2(ip)));
  }

  /** The number of a network is in it, and stays so with a byte that the mask does not tell from its own. */
  lemma ReplacedIsContained(n: Net, i: nat, b: bv8)
    requires NumberAndMask(n).Some? && |NumberAndMask(n).value.0| == 4 && i < 4
    requires NumberAndMask(n).value.0[i] & NumberAndMask(n).value.1[i] == b & NumberAndMask(n).value.1[i]
    ensures Contains(n, NumberAndMask(n).value.0[i := b])
  {
  }

  /** An unsafe network compares 4 bytes. */
  lemma UnsafeIsShort(n: Net)
    requires Loadable(n) && !Safe(n)
    ensures NumberAndMask(n).Some? && |NumberAndMask(n).value.0| == 4
  {
    if NumberAndMask(n).Some? && |NumberAndMask(n).value.0| == 16 {
      UsualFormsAreSafe(n);
    }
  }

  /** A byte of the address that is not compared, or not in full, can differ. */
  lemma StrayByte(n: Net, i: nat) returns (ip: Addr)
    requires NumberAndMask(n).Some? && |NumberAndMask(n).value.0| == 4 && i < 4 && i < |n.ip|
    requires var Some((number, mask)) := NumberAndMask(n);
             number[i] != n.ip[i] || mask[i] != 0xff
    ensures |ip| == 4 && Contains(n, ip) && ip[i] != n.ip[i]
  {
    var number, mask := NumberAndMask(n).value.0, NumberAndMask(n).value.1;
    var b := number[i];
    if b == n.ip[i] {
      b := Flip(number[i], mask[i]);
    }
    ReplacedIsContained(n, i, b);
    ip := number[i := b];
  }

  /** An address that differs in a byte the index goes by does not lead to the slot. */
  lemma LeadsElsewhere(n: Net, ip: Addr)
    requires Loadable(n) && |n.ip| >= 2 && |ip| >= 2 && Ones(n.mask) >= 8
    requires n.ip[0] != ip[0] || (Ones(n.mask) >= 16 && n.ip[1] != ip[1])
    ensures SlotOf(n) !in {Rest, First(Prefix1(ip)), Second(Prefix2(ip))}
  {
    PrefixesAreExact(n.ip, ip);
  }

  /** The byte that makes a network unsafe. */
  lemma UnsafeByte(n: Net) returns (i: nat)
    requires Loadable(n) && !Safe(n)
    ensures NumberAndMask(n).Some? && |NumberAndMask(n).value.0| == 4
    ensures i < 2 && Ones(n.mask) >= 8 * (i + 1)
    ensures var Some((number, mask)) := NumberAndMask(n); number[i] != n.ip[i] || mask[i] != 0xff
  {
    UnsafeIsShort(n);
    var Some((number, mask)) := NumberAndMask(n);
    i := if number[0] != n.ip[0] || mask[0] != 0xff then 0 else 1;
  }

  /** An address in an unsafe network that does not lead to its slot. */
  lemma StrayAddress(n: Net) returns (ip: Addr)
    requires Loadable(n) && !Safe(n)
    ensures |ip| == 4 && Contains(n, ip)
    ensures SlotOf(n) !in {Rest, First(Prefix1(ip)), Second(Prefix2(ip))}
  {
    var i := UnsafeByte(n);
    ip := StrayByte(n, i);
    LeadsElsewhere(n, ip);
  }

  /** The exact limit: a list with one unsafe network contains an address that the query misses. */
  lemma UnsafeIsMissed(f: Filter, n: Net) returns (ip: Addr)
    requires Loadable(n) && !Safe(n) && AllLoadable([n]) && Indexes(f, [n])
    ensures |ip| == 4 && Scan([n], ip) && !Query(f, ip)
  {
    ip := StrayAddress(n);
    assert Contains([n][0], ip);
    AloneInSlot(f, n, ip);
  }

  /** So the index of one network agrees with the scan on all queries exactly when it is safe. */
  lemma SafeIsExact(f: Filter, n: Net)
    requires Loadable(n) && AllLoadable([n]) && Indexes(f, [n])
    ensures Safe(n) <==> forall ip: Addr :: |ip| >= 2 ==> (Query(f, ip) <==> Scan([n], ip))
  {
    if Safe(n) {
      forall ip: Addr | |ip| >= 2 ensures Query(f, ip) <==> Scan([n], ip) {
        IndexAgreesWithScan(f, [n], ip);
      }
    } else {
      var ip := UnsafeIsMissed(f, n);
    }
  }

  lemma {:induction false} FullThenZero(k: nat, z: nat)
    ensures MaskLength(seq(k, _ => 0xff as bv8) + seq(z, _ => 0 as bv8)) == Some(8 * k)
  {
    var mask := seq(k, _ => 0xff as bv8) + seq(z, _ => 0 as bv8);
    if k > 0 {
      assert mask[1..] == seq(k - 1, _ => 0xff as bv8) + seq(z, _ => 0 as bv8);
      FullThenZero(k - 1, z);
    }
  }

  /** The network ::ffff:10.0.0.0/104. */
  function MappedTen(): Net {
    Net([0, 0, 0, 0, 0, 0, 0, 0, 0, 0, 0xff, 0xff, 10, 0, 0, 0], seq(13, _ => 0xff as bv8) + seq(3, _ => 0 as bv8))
  }

  lemma MappedTenFacts()
    ensures NumberAndMask(MappedTen()) == Some(([10, 0, 0, 0], [0xff, 0, 0, 0]))
    ensures Ones(MappedTen().mask) == 104
  {
    FullThenZero(13, 3);
    ShortForm(MappedTen());
  }

  /** An address of 12 known bytes and a mask of 13 full ones. */
  lemma ShortForm(n: Net)
    requires |n.ip| == 16 && (forall i :: 0 <= i < 10 ==> n.ip[i] == 0) && n.ip[10] == 0xff && n.ip[11] == 0xff
    requires n.ip[12] == 10 && n.ip[13] == 0 && n.ip[14] == 0 && n.ip[15] == 0
    requires |n.mask| == 16 && n.mask[12] == 0xff && n.mask[13] == 0 && n.mask[14] == 0 && n.mask[15] == 0
    ensures NumberAndMask(n) == Some(([10, 0, 0, 0], [0xff, 0, 0, 0]))
  {
    assert n.ip[12..] == [10, 0, 0, 0];
    assert n.mask[12..] == [0xff, 0, 0, 0];
  }

  /** A network that compares the first byte only. */
  lemma FirstByteDecides(n: Net, ip: Addr)
    requires NumberAndMask(n) == Some(([10, 0, 0, 0], [0xff, 0, 0, 0])) && |ip| == 4 && ip[0] == 10
    ensures Contains(n, ip)
  {
    forall i | 1 <= i < 4
      ensures NumberAndMask(n).value.0[i] & NumberAndMask(n).value.1[i] == ip[i] & NumberAndMask(n).value.1[i]
    {
      assert NumberAndMask(n).value.1[i] == 0;
      ZeroMask(NumberAndMask(n).value.0[i], ip[i]);
    }
  }

  lemma ZeroMask(a: bv8, b: bv8)
    ensures a & 0 == b & 0
  {
  }

  /** It is missed if the index goes by other bytes. */
  lemma FirstByteIsMissed(f: Filter, n: Net, ip: Addr)
    requires NumberAndMask(n) == Some(([10, 0, 0, 0], [0xff, 0, 0, 0])) && |ip| == 4 && ip[0] == 10
    requires |n.ip| == 16 && n.ip[0] == 0 && Ones(n.mask) >= 8 && AllLoadable([n]) && Indexes(f, [n])
    ensures Scan([n], ip) && !Query(f, ip)
  {
    FirstByteDecides(n, ip);
    assert Contains([n][0], ip);
    assert [n][0] == n;
    LeadsElsewhere(n, ip);
    AloneInSlot(f, n, ip);
  }

  /** Such a network can be written: this one contains every address 10.x.y.z, and the query misses
      them all. */
  lemma MappedNetworkIsMissed(f: Filter, ip: Addr)
    requires |ip| == 4 && ip[0] == 10
    ensures AllLoadable([MappedTen()])
    ensures Indexes(f, [MappedTen()]) ==> Scan([MappedTen()], ip) && !Query(f, ip)
  {
    MappedTenFacts();
    if Indexes(f, [MappedTen()]) {
      FirstByteIsMissed(f, MappedTen(), ip);
    }
  }
}
