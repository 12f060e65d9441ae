/** What membership in a network means, bit by bit and as numbers, and what a mask is. */
module IpMembership {
  import opened Prelude
  import opened IpFilter

  // ---------- bits ----------

  /** The bits of a byte, the highest first. */
  function Weight(j: nat): bv8
    requires j < 8
  {
    match j
    case 0 => 0x80
    case 1 => 0x40
    case 2 => 0x20
    case 3 => 0x10
    case 4 => 0x08
    case 5 => 0x04
    case 6 => 0x02
    case _ => 0x01
  }

  predicate ByteBit(b: bv8, j: nat)
    requires j < 8
  {
    b & Weight(j) != 0
  }

  predicate Bit(x: Addr, j: nat)
    requires j < 8 * |x|
  {
    ByteBit(x[j / 8], j % 8)
  }

  /** Two bytes agree under a mask exactly if they have the same bits where the mask has one. */
  lemma ByteAgrees(a: bv8, b: bv8, m: bv8)
    ensures a & m == b & m <==> forall j :: 0 <= j < 8 && ByteBit(m, j) ==> (ByteBit(a, j) <==> ByteBit(b, j))
  {
    forall j | 0 <= j < 8 && a & m == b & m && ByteBit(m, j)
      ensures ByteBit(a, j) <==> ByteBit(b, j)
    {
      BitUnderMask(a, b, m, j);
    }
    if forall j :: 0 <= j < 8 && ByteBit(m, j) ==> (ByteBit(a, j) <==> ByteBit(b, j)) {
      assert forall j :: 0 <= j < 8 ==> (ByteBit(m, j) ==> (ByteBit(a, j) <==> ByteBit(b, j)));
      AllBits(a, b, m);
    }
  }

  lemma BitUnderMask(a: bv8, b: bv8, m: bv8, j: nat)
    requires j < 8 && a & m == b & m && ByteBit(m, j)
    ensures ByteBit(a, j) <==> ByteBit(b, j)
  {
  }

  lemma AllBits(a: bv8, b: bv8, m: bv8)
    requires forall j :: 0 <= j < 8 ==> (ByteBit(m, j) ==> (ByteBit(a, j) <==> ByteBit(b, j)))
    ensures a & m == b & m
  {
    assert ByteBit(m, 0) ==> (ByteBit(a, 0) <==> ByteBit(b, 0));
    assert ByteBit(m, 1) ==> (ByteBit(a, 1) <==> ByteBit(b, 1));
    assert ByteBit(m, 2) ==> (ByteBit(a, 2) <==> ByteBit(b, 2));
    assert ByteBit(m, 3) ==> (ByteBit(a, 3) <==> ByteBit(b, 3));
    assert ByteBit(m, 4) ==> (ByteBit(a, 4) <==> ByteBit(b, 4));
    assert ByteBit(m, 5) ==> (ByteBit(a, 5) <==> ByteBit(b, 5));
    assert ByteBit(m, 6) ==> (ByteBit(a, 6) <==> ByteBit(b, 6));
    assert ByteBit(m, 7) ==> (ByteBit(a, 7) <==> ByteBit(b, 7));
  }

  /** Two addresses have the same bits where the mask has one. */
  predicate SameBits(number: Addr, mask: Addr, x: Addr)
    requires |number| == |mask| == |x|
  {
    forall j :: 0 <= j < 8 * |x| && Bit(mask, j) ==> (Bit(number, j) <==> Bit(x, j))
  }

  predicate SameBytes(number: Addr, mask: Addr, x: Addr)
    requires |number| == |mask| == |x|
  {
    forall i :: 0 <= i < |x| ==> number[i] & mask[i] == x[i] & mask[i]
  }

  /** The bits of byte i. */
  lemma BitAt(x: Addr, i: nat, j: nat)
    requires i < |x| && j < 8
    ensures 8 * i + j < 8 * |x| && (Bit(x, 8 * i + j) <==> ByteBit(x[i], j))
  {
    assert (8 * i + j) / 8 == i && (8 * i + j) % 8 == j;
  }

  lemma BitsOfByte(number: Addr, mask: Addr, x: Addr, i: nat)
    requires |number| == |mask| == |x| && SameBits(number, mask, x) && i < |x|
    ensures number[i] & mask[i] == x[i] & mask[i]
  {
    forall j | 0 <= j < 8 && ByteBit(mask[i], j)
      ensures ByteBit(number[i], j) <==> ByteBit(x[i], j)
    {
      BitAt(mask, i, j);
      BitAt(number, i, j);
      BitAt(x, i, j);
    }
    ByteAgrees(number[i], x[i], mask[i]);
  }

  lemma ByteOfBit(number: Addr, mask: Addr, x: Addr, j: nat)
    requires |number| == |mask| == |x| && SameBytes(number, mask, x) && j < 8 * |x| && Bit(mask, j)
    ensures Bit(number, j) <==> Bit(x, j)
  {
    ByteAgrees(number[j / 8], x[j / 8], mask[j / 8]);
  }

  lemma BytesAreBits(number: Addr, mask: Addr, x: Addr)
    requires |number| == |mask| == |x|
    ensures SameBytes(number, mask, x) <==> SameBits(number, mask, x)
  {
    if SameBytes(number, mask, x) {
      forall j | 0 <= j < 8 * |x| && Bit(mask, j)
        ensures Bit(number, j) <==> Bit(x, j)
      {
        ByteOfBit(number, mask, x, j);
      }
    }
    if SameBits(number, mask, x) {
      forall i | 0 <= i < |x|
        ensures number[i] & mask[i] == x[i] & mask[i]
      {
        BitsOfByte(number, mask, x, i);
      }
    }
  }

  /** An address is in a network exactly if it is as long as its number and has the same bits as that where
      the mask has one. A network without number or mask contains the address of no bytes. */
  lemma ContainsIsBits(n: Net, ip: Addr)
    ensures var x := Normal(ip);
            Contains(n, ip) <==>
            match NumberAndMask(n)
            case None => x == []
            case Some((number, mask)) => |x| == |number| && SameBits(number, mask, x)
  {
    var x := Normal(ip);
    if NumberAndMask(n).Some? && |x| == |NumberAndMask(n).value.0| {
      BytesAreBits(NumberAndMask(n).value.0, NumberAndMask(n).value.1, x);
    }
  }

  /** The address with one bit changed. */
  function Flipped(x: Addr, j: nat): Addr
    requires j < 8 * |x|
  {
    x[j / 8 := x[j / 8] ^ Weight(j % 8)]
  }

  lemma FlippedApart(b: bv8, u: bv8, w: bv8)
    requires u & w == 0
    ensures (b ^ u) & w == b & w
  {
  }

  lemma FlippedByte(b: bv8, j: nat, k: nat)
    requires j < 8 && k < 8
    ensures ByteBit(b ^ Weight(j), k) <==> (ByteBit(b, k) != (j == k))
  {
    if j == k {
      FlippedSame(b, j);
    } else {
      assert Weight(j) & Weight(k) == 0;
      FlippedApart(b, Weight(j), Weight(k));
    }
  }

  lemma FlippedSame(b: bv8, j: nat)
    requires j < 8
    ensures ByteBit(b ^ Weight(j), j) <==> !ByteBit(b, j)
  {
  }

  lemma FlippedBit(x: Addr, j: nat, k: nat)
    requires j < 8 * |x| && k < 8 * |x|
    ensures Bit(Flipped(x, j), k) <==> (Bit(x, k) != (j == k))
  {
    if j / 8 == k / 8 {
      FlippedByte(x[j / 8], j % 8, k % 8);
    }
  }

  /** Each bit of a mask counts and no other: an address that is contained is no longer so after a change of
      one bit exactly if the mask has that bit, or if the change makes it an IPv4 address in 16 bytes. */
  lemma EachBitCounts(n: Net, x: Addr, j: nat)
    requires NumberAndMask(n).Some? && Normal(x) == x && Contains(n, x) && j < 8 * |x|
    ensures |NumberAndMask(n).value.1| == |x|
    ensures Contains(n, Flipped(x, j)) <==> !Bit(NumberAndMask(n).value.1, j) && !IsMapped(Flipped(x, j))
  {
    var (number, mask) := NumberAndMask(n).value;
    var y := Flipped(x, j);
    ContainsIsBits(n, x);
    ContainsIsBits(n, y);
    forall k | 0 <= k < 8 * |x|
      ensures Bit(y, k) <==> (Bit(x, k) != (j == k))
    {
      FlippedBit(x, j, k);
    }
    if Bit(mask, j) && !IsMapped(y) {
      assert !SameBits(number, mask, y) by {
        assert Bit(number, j) <==> Bit(x, j);
      }
    }
  }

  // ---------- masks ----------

  /** The ones and then zeros of a byte. */
  lemma LeadingOnesAreBits(b: bv8, k: nat)
    ensures LeadingOnes(b) == Some(k) <==> k <= 8 && forall j :: 0 <= j < 8 ==> (ByteBit(b, j) <==> j < k)
  {
    if LeadingOnes(b) == Some(k) {
      LeadingBits(b, k);
    }
    if k <= 8 && forall j :: 0 <= j < 8 ==> (ByteBit(b, j) <==> j < k) {
      BitsLead(b, k);
    }
  }

  lemma LeadingBits(b: bv8, k: nat)
    requires LeadingOnes(b) == Some(k)
    ensures k <= 8 && forall j :: 0 <= j < 8 ==> (ByteBit(b, j) <==> j < k)
  {
  }

  lemma BitsLead(b: bv8, k: nat)
    requires k <= 8 && forall j :: 0 <= j < 8 ==> (ByteBit(b, j) <==> j < k)
    ensures LeadingOnes(b) == Some(k)
  {
    assert ByteBit(b, 0) <==> 0 < k;
    assert ByteBit(b, 1) <==> 1 < k;
    assert ByteBit(b, 2) <==> 2 < k;
    assert ByteBit(b, 3) <==> 3 < k;
    assert ByteBit(b, 4) <==> 4 < k;
    assert ByteBit(b, 5) <==> 5 < k;
    assert ByteBit(b, 6) <==> 6 < k;
    assert ByteBit(b, 7) <==> 7 < k;
  }

  lemma FullByte(b: bv8)
    ensures b == 0xff <==> forall j :: 0 <= j < 8 ==> ByteBit(b, j)
  {
    LeadingOnesAreBits(b, 8);
  }

  lemma ZeroByte(b: bv8)
    ensures b == 0 <==> forall j :: 0 <= j < 8 ==> !ByteBit(b, j)
  {
    LeadingOnesAreBits(b, 0);
  }

  /** The first k bits are ones and the others zeros. */
  predicate OnesThenZeros(mask: Addr, k: nat) {
    k <= 8 * |mask| && forall j :: 0 <= j < 8 * |mask| ==> (Bit(mask, j) <==> j < k)
  }

  lemma BitOfTail(x: Addr, j: nat)
    requires x != [] && j < 8 * |x|
    ensures j < 8 ==> (Bit(x, j) <==> ByteBit(x[0], j))
    ensures j >= 8 ==> (Bit(x, j) <==> Bit(x[1..], j - 8))
  {
  }

  /** One byte and the others. */
  lemma OnesSplit(mask: Addr, k: nat)
    requires mask != []
    ensures OnesThenZeros(mask, k) <==>
            && (forall j :: 0 <= j < 8 ==> (ByteBit(mask[0], j) <==> j < k))
            && OnesThenZeros(mask[1..], if k < 8 then 0 else k - 8)
  {
    forall j | 0 <= j < 8 * |mask|
      ensures j < 8 ==> (Bit(mask, j) <==> ByteBit(mask[0], j))
      ensures j >= 8 ==> (Bit(mask, j) <==> Bit(mask[1..], j - 8))
    {
      BitOfTail(mask, j);
    }
    if OnesThenZeros(mask, k) {
      forall j | 0 <= j < 8 * |mask[1..]|
        ensures Bit(mask[1..], j) <==> Bit(mask, j + 8)
      {
        BitOfTail(mask, j + 8);
      }
    }
  }

  lemma ZeroTail(mask: Addr)
    ensures OnesThenZeros(mask, 0) <==> forall i :: 0 <= i < |mask| ==> mask[i] == 0
  {
    if OnesThenZeros(mask, 0) {
      forall i | 0 <= i < |mask|
        ensures mask[i] == 0
      {
        forall j | 0 <= j < 8
          ensures !ByteBit(mask[i], j)
        {
          BitAt(mask, i, j);
        }
        ZeroByte(mask[i]);
      }
    }
    if forall i :: 0 <= i < |mask| ==> mask[i] == 0 {
      forall j | 0 <= j < 8 * |mask|
        ensures !Bit(mask, j)
      {
        ZeroByte(mask[j / 8]);
      }
    }
  }

  /** The length of a mask is that of its ones, and only a mask of ones and then zeros has one. */
  lemma {:induction false} MaskLengthIsOnes(mask: Addr, k: nat)
    ensures MaskLength(mask) == Some(k) <==> OnesThenZeros(mask, k)
  {
    if mask != [] {
      OnesSplit(mask, k);
      FullByte(mask[0]);
      if mask[0] == 0xff {
        if k >= 8 {
          MaskLengthIsOnes(mask[1..], k - 8);
        } else {
          assert !(ByteBit(mask[0], k) <==> k < k);
        }
      } else {
        ZeroTail(mask[1..]);
        LeadingOnesAreBits(mask[0], k);
        assert forall i :: 1 <= i < |mask| ==> mask[i] == mask[1..][i - 1];
        assert forall i :: 0 <= i < |mask| - 1 ==> mask[1..][i] == mask[i + 1];
      }
    }
  }

  // ---------- numbers ----------

  function Pow2(n: nat): (p: nat)
    ensures p > 0
  {
    if n == 0 then 1 else 2 * Pow2(n - 1)
  }

  /** The address as a big-endian number. */
  function Number(x: Addr): nat {
    if x == [] then 0 else Number(x[..|x| - 1]) * 256 + x[|x| - 1] as int
  }

  /** The first k bits as a number. */
  function Prefix(x: Addr, k: nat): nat
    requires k <= 8 * |x|
  {
    if k == 0 then 0 else 2 * Prefix(x, k - 1) + if Bit(x, k - 1) then 1 else 0
  }

  lemma {:induction false} PrefixIsBits(x: Addr, y: Addr, k: nat)
    requires |x| == |y| && k <= 8 * |x|
    ensures Prefix(x, k) == Prefix(y, k) <==> forall j :: 0 <= j < k ==> (Bit(x, j) <==> Bit(y, j))
  {
    if k > 0 {
      PrefixIsBits(x, y, k - 1);
    }
  }

  lemma HalfOf(v: nat, p: nat)
    requires p > 0
    ensures v / p / 2 == v / (2 * p)
  {
    var q, r := v / p / 2, v / p % 2;
    assert v == (2 * q + r) * p + v % p;
    assert v == q * (2 * p) + (r * p + v % p);
    assert r * p + v % p < 2 * p;
    Quotient(v, 2 * p, q, r * p + v % p);
  }

  lemma Quotient(v: nat, d: nat, q: nat, r: nat)
    requires r < d && v == q * d + r
    ensures v / d == q
  {
    var e := v / d - q;
    assert e * d == r - v % d;
    SmallMultiple(e, d);
  }

  lemma SmallMultiple(e: int, d: int)
    requires -d < e * d < d
    ensures e == 0
  {
  }

  /** Dividing by a power of two leaves a prefix. */
  lemma {:induction false} PrefixIsQuotient(x: Addr, k: nat)
    requires k <= 8 * |x|
    ensures Prefix(x, k) == Prefix(x, 8 * |x|) / Pow2(8 * |x| - k)
    decreases 8 * |x| - k
  {
    if k < 8 * |x| {
      PrefixIsQuotient(x, k + 1);
      HalfOf(Prefix(x, 8 * |x|), Pow2(8 * |x| - k - 1));
    }
  }

  function Value(b: bv8, j: nat, weight: nat): nat
    requires j < 8
  {
    if ByteBit(b, j) then weight else 0
  }

  lemma ByteIsBits(b: bv8)
    ensures b as int == Value(b, 0, 128) + Value(b, 1, 64) + Value(b, 2, 32) + Value(b, 3, 16)
                        + Value(b, 4, 8) + Value(b, 5, 4) + Value(b, 6, 2) + Value(b, 7, 1)
  {
  }

  lemma PrefixMore(x: Addr, i: nat, j: nat)
    requires i < |x| && j < 8
    ensures Prefix(x, 8 * i + j + 1) == 2 * Prefix(x, 8 * i + j) + Value(x[i], j, 1)
  {
    BitAt(x, i, j);
  }

  lemma ScaleValue(b: bv8, j: nat, weight: nat)
    requires j < 8
    ensures Value(b, j, weight) == weight * Value(b, j, 1)
  {
  }

  /** One byte more. */
  lemma PrefixByte(x: Addr, i: nat)
    requires i < |x|
    ensures Prefix(x, 8 * i + 8) == Prefix(x, 8 * i) * 256 + x[i] as int
  {
    forall j | 0 <= j < 8
      ensures Prefix(x, 8 * i + j + 1) == 2 * Prefix(x, 8 * i + j) + Value(x[i], j, 1)
    {
      PrefixMore(x, i, j);
    }
    ByteIsBits(x[i]);
    var b := x[i];
    ScaleValue(b, 0, 128);
    ScaleValue(b, 1, 64);
    ScaleValue(b, 2, 32);
    ScaleValue(b, 3, 16);
    ScaleValue(b, 4, 8);
    ScaleValue(b, 5, 4);
    ScaleValue(b, 6, 2);
    assert Prefix(x, 8 * i + 2) == 4 * Prefix(x, 8 * i) + 2 * Value(b, 0, 1) + Value(b, 1, 1);
    assert Prefix(x, 8 * i + 4) == 4 * Prefix(x, 8 * i + 2) + 2 * Value(b, 2, 1) + Value(b, 3, 1);
    assert Prefix(x, 8 * i + 6) == 4 * Prefix(x, 8 * i + 4) + 2 * Value(b, 4, 1) + Value(b, 5, 1);
    assert Prefix(x, 8 * i + 8) == 4 * Prefix(x, 8 * i + 6) + 2 * Value(b, 6, 1) + Value(b, 7, 1);
  }

  lemma {:induction false} BytesAreNumber(x: Addr, i: nat)
    requires i <= |x|
    ensures Prefix(x, 8 * i) == Number(x[..i])
  {
    if i > 0 {
      BytesAreNumber(x, i - 1);
      PrefixByte(x, i - 1);
      assert x[..i][..i - 1] == x[..i - 1];
    }
  }

  /** The first k bits of an address are its number divided by a power of two. */
  lemma PrefixIsNumber(x: Addr, k: nat)
    requires k <= 8 * |x|
    ensures Prefix(x, k) == Number(x) / Pow2(8 * |x| - k)
  {
    PrefixIsQuotient(x, k);
    BytesAreNumber(x, |x|);
    assert x[..|x|] == x;
  }

  /** Membership in a network whose mask has a length k: the address is as long as the number of the network,
      and the two have the same first k bits, which is to say the same quotient as numbers. */
  lemma ContainsIsPrefix(n: Net, ip: Addr, k: nat)
    requires NumberAndMask(n).Some? && MaskLength(NumberAndMask(n).value.1) == Some(k)
    ensures var x, number := Normal(ip), NumberAndMask(n).value.0;
            Contains(n, ip) <==>
            && |x| == |number| && k <= 8 * |x|
            && Number(x) / Pow2(8 * |x| - k) == Number(number) / Pow2(8 * |x| - k)
  {
    var x, number, mask := Normal(ip), NumberAndMask(n).value.0, NumberAndMask(n).value.1;
    ContainsIsBits(n, ip);
    MaskLengthIsOnes(mask, k);
    if |x| == |number| {
      PrefixIsBits(x, number, k);
      PrefixIsNumber(x, k);
      PrefixIsNumber(number, k);
    }
  }

  // ---------- IPv4 in 16 bytes ----------

  lemma {:induction false} NumberAppend(a: Addr, b: Addr)
    ensures Number(a + b) == Number(a) * Pow2(8 * |b|) + Number(b)
  {
    if b == [] {
      assert a + b == a;
    } else {
      var c := b[..|b| - 1];
      NumberAppend(a, c);
      assert (a + b)[..|a + b| - 1] == a + c;
      EightMore(8 * |c|);
      Scale(Number(a), Pow2(8 * |c|), Number(c));
    }
  }

  lemma Scale(a: nat, p: nat, c: nat)
    ensures (a * p + c) * 256 == a * (256 * p) + c * 256
  {
  }

  lemma FourMore(n: nat)
    ensures Pow2(n + 4) == 16 * Pow2(n)
  {
    assert Pow2(n + 1) == 2 * Pow2(n);
    assert Pow2(n + 2) == 2 * Pow2(n + 1);
    assert Pow2(n + 3) == 2 * Pow2(n + 2);
  }

  lemma EightMore(n: nat)
    ensures Pow2(n + 8) == 256 * Pow2(n)
  {
    FourMore(n);
    FourMore(n + 4);
  }

  lemma {:induction false} NumberIsExact(x: Addr, y: Addr)
    requires |x| == |y|
    ensures Number(x) == Number(y) <==> x == y
  {
    if x != [] {
      var x', y' := x[..|x| - 1], y[..|y| - 1];
      NumberIsExact(x', y');
      ByteIsExact(x[|x| - 1], y[|x| - 1]);
      assert x == x' + [x[|x| - 1]] && y == y' + [y[|x| - 1]];
      assert Number(x) == Number(y) ==> Number(x') == Number(y');
    }
  }

  lemma {:induction false} NumberOfZeros(x: Addr)
    requires forall i :: 0 <= i < |x| ==> x[i] == 0
    ensures Number(x) == 0
  {
    if x != [] {
      NumberOfZeros(x[..|x| - 1]);
    }
  }

  /** The 12 bytes in front of an IPv4 address. */
  function Lead(): Addr {
    [0, 0, 0, 0, 0, 0, 0, 0, 0, 0, 0xff, 0xff]
  }

  lemma LeadNumber()
    ensures Number(Lead()) == 0xffff
  {
    NumberOfZeros(Lead()[..10]);
    assert Lead()[..11][..10] == Lead()[..10];
    assert Number(Lead()[..11]) == 0xff;
  }

  lemma MappedIsLead(ip: Addr)
    requires |ip| == 16
    ensures IsMapped(ip) <==> ip[..12] == Lead()
  {
    assert forall i :: 0 <= i < 12 ==> ip[..12][i] == ip[i];
  }

  /** An address of 16 bytes is an IPv4 address exactly if its number is in one range of 2^32, and To4 gives
      its place in the range. */
  lemma MappedIsRange(ip: Addr)
    requires |ip| == 16
    ensures IsMapped(ip) <==> Number(ip) / Pow2(32) == 0xffff
    ensures IsMapped(ip) ==> Number(ip) == 0xffff * Pow2(32) + Number(Normal(ip))
  {
    PrefixIsNumber(ip, 96);
    BytesAreNumber(ip, 12);
    LeadNumber();
    NumberIsExact(ip[..12], Lead());
    MappedIsLead(ip);
    NumberAppend(ip[..12], ip[12..]);
    assert ip == ip[..12] + ip[12..];
  }
}
