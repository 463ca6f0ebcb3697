/** Splitting an IPv4 block into a DHCP half and a reserved half
    (internal/modules/docker/domain/subnet.go). Addresses are 32-bit numbers; a block is the set of
    addresses that share a prefix (section 3.1 of RFC 4632). */
module Subnet {
  import opened Options
  import opened Products

  const TWO_32: int := 0x1_0000_0000

  /** What the library's CIDR parser returns. */
  datatype Cidr = Malformed | V6 | V4(addr: nat, ones: nat)

  datatype Error = Invalid | NotIPv4 | TooSmall

  datatype Split = Split(dhcpStart: string, dhcpEnd: string, reservedStart: string, reservedEnd: string)

  datatype Result<+T> = Ok(value: T) | Err(error: Error)

  predicate WellFormed(c: Cidr) {
    c.V4? ==> c.addr < TWO_32 && c.ones <= 32
  }

  function Pow2(n: nat): (p: nat)
    ensures p > 0
  {
    if n == 0 then 1 else 2 * Pow2(n - 1)
  }

  // uint32 arithmetic wraps, and shifting a uint32 by 32 or more gives 0.

  function U32(x: int): nat {
    x % TWO_32
  }

  function ShiftOne(n: nat): nat {
    if n >= 32 then 0 else Pow2(n)
  }

  /** The network address: the parsed address with its host bits cleared. */
  function Network(c: Cidr): nat
    requires c.V4? && WellFormed(c)
  {
    Cleared(c.addr, Pow2(32 - c.ones))
  }

  function Cleared(a: nat, p: nat): nat
    requires p > 0
  {
    a - a % p
  }

  /** The four bounds as 32-bit numbers. */
  datatype Bounds = Bounds(dhcpStart: nat, dhcpEnd: nat, reservedStart: nat, reservedEnd: nat)

  function BoundsOf(base: nat, ones: nat): Bounds
    requires ones <= 32
  {
    var size := ShiftOne(32 - ones);
    var half := size / 2;
    Bounds(U32(base + 1), U32(base + half - 1), U32(base + half), U32(base + size - 2))
  }

  function SplitSubnet(c: Cidr): Result<Split>
    requires WellFormed(c)
  {
    if c.Malformed? then Err(Invalid)
    else if c.V6? then Err(NotIPv4)
    else if c.ones >= 31 then Err(TooSmall)
    else
      var b := BoundsOf(Network(c), c.ones);
      Ok(Split(Dotted(b.dhcpStart), Dotted(b.dhcpEnd), Dotted(b.reservedStart), Dotted(b.reservedEnd)))
  }

  /** The blocks that can be split. */
  predicate Splittable(c: Cidr) {
    c.V4? && c.ones <= 30
  }

  /** The lower half as a CIDR, or the empty text when there is nothing to split. */
  function DHCPRangeCIDR(c: Cidr): string
    requires WellFormed(c)
  {
    if !c.V4? || c.ones >= 31 then ""
    else Dotted(Network(c)) + "/" + Decimal(c.ones + 1)
  }

  // ---------------------------------------------------------------- the two halves

  /** Membership in the block of a network address with a prefix length. */
  predicate InBlock(a: nat, network: nat, ones: nat)
    requires ones <= 32
  {
    a - a % Pow2(32 - ones) == network
  }

  lemma {:induction false} Pow2AtMost(n: nat, m: nat)
    requires n <= m
    ensures Pow2(n) <= Pow2(m)
    ensures n >= 2 ==> Pow2(n) >= 4
  {
    if n < m { Pow2AtMost(n, m - 1); } else if n > 2 { Pow2AtMost(n - 1, n - 1); }
    if n == 2 { assert Pow2(1) == 2; }
    if 2 < n < m { Pow2AtMost(n - 1, m - 1); }
  }

  lemma Pow2Of32()
    ensures Pow2(32) == TWO_32
  {
    assert Pow2(8) == 256;
    assert Pow2(16) == 65536;
    assert Pow2(24) == 0x100_0000;
  }

  lemma AlignedInBlock(a: nat, base: nat, h: nat)
    requires h > 0 && base % h == 0
    ensures a - a % h == base <==> base <= a < base + h
  {
    DivMod(a, h);
    DivMod(base, h);
    if base <= a < base + h { DivModUnique(a, h, base / h, a - base); }
  }

  lemma ClearedIsAligned(a: nat, h: nat)
    requires h > 0
    ensures Cleared(a, h) % h == 0
  {
    DivMod(a, h);
    DivModUnique(Cleared(a, h), h, a / h, 0);
  }

  lemma HalvesAligned(base: nat, h: nat)
    requires h > 0 && base % (2 * h) == 0
    ensures base % h == 0
  {
    var q := base / (2 * h);
    DivMod(base, 2 * h);
    assert (2 * h) * q == h * (2 * q);
    DivModUnique(base, h, 2 * q, 0);
  }

  lemma AlignedFits(base: nat, size: nat, total: nat, times: nat)
    requires size > 0 && total == size * times && base < total && base % size == 0
    ensures base + size <= total
  {
    var q := base / size;
    DivMod(base, size);
    if q < times { MulStep(size, q, times); } else { MulMonotone(size, times, q); }
  }

  lemma {:induction false} Pow2Product(n: nat, m: nat)
    ensures Pow2(n + m) == Pow2(n) * Pow2(m)
  {
    if n > 0 {
      Pow2Product(n - 1, m);
      MulAssoc(2, Pow2(n - 1), Pow2(m));
    }
  }

  lemma HalfSize(ones: nat) returns (half: nat)
    requires 1 <= ones <= 30
    ensures half == Pow2(31 - ones) >= 2 && Pow2(32 - ones) == 2 * half
    ensures Pow2(32 - ones) * Pow2(ones) == TWO_32
  {
    half := Pow2(31 - ones);
    Pow2AtMost(1, 31 - ones);
    Pow2Of32();
    Pow2Product(32 - ones, ones);
  }

  lemma NothingWraps(base: nat, half: nat)
    requires half >= 2 && base + 2 * half <= TWO_32
    ensures U32(base + 1) == base + 1 && U32(base + half - 1) == base + half - 1
    ensures U32(base + half) == base + half && U32(base + 2 * half - 2) == base + 2 * half - 2
  {
  }

  /** The unwrapped picture of a splittable block. */
  lemma BlockShape(c: Cidr) returns (half: nat)
    requires WellFormed(c) && c.V4? && 1 <= c.ones <= 30
    ensures half == Pow2(31 - c.ones) >= 2 && Pow2(32 - c.ones) == 2 * half
    ensures Network(c) % half == 0 && Network(c) + 2 * half <= TWO_32
    ensures BoundsOf(Network(c), c.ones)
            == Bounds(Network(c) + 1, Network(c) + half - 1, Network(c) + half, Network(c) + 2 * half - 2)
  {
    half := HalfSize(c.ones);
    BlockFits(c.addr, half, Pow2(c.ones));
    BoundsShape(Network(c), c.ones, half);
  }

  lemma BlockFits(addr: nat, half: nat, times: nat)
    requires half > 0 && addr < TWO_32 && (2 * half) * times == TWO_32
    ensures Cleared(addr, 2 * half) % half == 0 && Cleared(addr, 2 * half) + 2 * half <= TWO_32
  {
    ClearedIsAligned(addr, 2 * half);
    HalvesAligned(Cleared(addr, 2 * half), half);
    AlignedFits(Cleared(addr, 2 * half), 2 * half, TWO_32, times);
  }

  lemma BoundsShape(base: nat, ones: nat, half: nat)
    requires 1 <= ones <= 30 && half >= 2 && Pow2(32 - ones) == 2 * half && base + 2 * half <= TWO_32
    ensures BoundsOf(base, ones) == Bounds(base + 1, base + half - 1, base + half, base + 2 * half - 2)
  {
    NothingWraps(base, half);
  }

  predicate InDhcp(b: Bounds, a: nat) {
    b.dhcpStart <= a <= b.dhcpEnd
  }

  predicate InReserved(b: Bounds, a: nat) {
    b.reservedStart <= a <= b.reservedEnd
  }

  /** The two ranges partition the host addresses of the block. */
  ghost predicate Partitions(b: Bounds, base: nat, size: nat) {
    forall a: nat :: a < TWO_32 ==>
      && !(InDhcp(b, a) && InReserved(b, a))
      && (InDhcp(b, a) || InReserved(b, a) <==> base < a < base + size - 1)
  }

  lemma WholeSpaceOverlaps(c: Cidr)
    requires WellFormed(c) && c.V4? && c.ones == 0
    ensures Network(c) == 0 && BoundsOf(0, 0) == Bounds(1, TWO_32 - 1, 0, TWO_32 - 2)
    ensures InDhcp(BoundsOf(Network(c), 0), 1) && InReserved(BoundsOf(Network(c), 0), 1)
  {
    Pow2Of32();
    assert Network(c) == 0;
    WholeSpaceBounds();
  }

  lemma WholeSpaceBounds()
    ensures BoundsOf(0, 0) == Bounds(1, TWO_32 - 1, 0, TWO_32 - 2)
  {
    assert ShiftOne(32) == 0;
  }

  /** The split is right exactly when the prefix is not 0: then the DHCP and reserved ranges are
      disjoint and together are all addresses but network and broadcast. On 0.0.0.0/0 the 32-bit
      shift gives 0 and the ranges overlap. */
  lemma SplitPartitionsIff(c: Cidr)
    requires WellFormed(c) && Splittable(c)
    ensures Partitions(BoundsOf(Network(c), c.ones), Network(c), Pow2(32 - c.ones)) <==> c.ones >= 1
  {
    var b, base := BoundsOf(Network(c), c.ones), Network(c);
    if c.ones >= 1 {
      var half := BlockShape(c);
      BoundsPartition(b, base, half);
    } else {
      WholeSpaceOverlaps(c);
      var one: nat := 1;
      assert one < TWO_32 && InDhcp(b, one) && InReserved(b, one);
    }
  }

  lemma BoundsPartition(b: Bounds, base: nat, half: nat)
    requires half >= 2 && b == Bounds(base + 1, base + half - 1, base + half, base + 2 * half - 2)
    ensures Partitions(b, base, 2 * half)
  {
  }

  /** The block named by DHCPRangeCIDR holds the whole DHCP range and nothing reserved, and the reserved
      range stays inside the block that was split. */
  ghost predicate Separates(b: Bounds, base: nat, ones: nat)
    requires ones < 32
  {
    && (forall a: nat :: InDhcp(b, a) ==> InBlock(a, base, ones + 1))
    && (forall a: nat :: InReserved(b, a) ==> !InBlock(a, base, ones + 1) && InBlock(a, base, ones))
  }

  predicate InOrder(b: Bounds, base: nat, size: nat) {
    base < b.dhcpStart <= b.dhcpEnd < b.reservedStart <= b.reservedEnd < base + size - 1 < TWO_32
  }

  /** Exactly when the prefix is not 0, the ranges are in order, no 32-bit operation having wrapped, and
      the DHCP block separates them. */
  lemma DhcpBlockSeparatesIff(c: Cidr)
    requires WellFormed(c) && Splittable(c)
    ensures Separates(BoundsOf(Network(c), c.ones), Network(c), c.ones) <==> c.ones >= 1
    ensures InOrder(BoundsOf(Network(c), c.ones), Network(c), Pow2(32 - c.ones)) <==> c.ones >= 1
  {
    if c.ones >= 1 {
      DhcpBlockSeparates(c);
    } else {
      WholeSpaceOverlaps(c);
      WholeSpaceInHalf(Bounds(1, TWO_32 - 1, 0, TWO_32 - 2));
    }
  }

  /** On the whole address space address 0 counts as reserved but lies in the lower half. */
  lemma WholeSpaceInHalf(b: Bounds)
    requires b.reservedStart == 0
    ensures !Separates(b, 0, 0)
  {
    assert InReserved(b, 0);
    RemainderOfZero(Pow2(31));
  }

  lemma RemainderOfZero(p: nat)
    requires p > 0
    ensures 0 % p == 0
  {
  }

  lemma DhcpBlockSeparates(c: Cidr)
    requires WellFormed(c) && c.V4? && 1 <= c.ones <= 30
    ensures var b, base := BoundsOf(Network(c), c.ones), Network(c);
            && InOrder(b, base, Pow2(32 - c.ones))
            && Separates(b, base, c.ones)
  {
    var half := BlockShape(c);
    var b, base := BoundsOf(Network(c), c.ones), Network(c);
    ClearedIsAligned(c.addr, 2 * half);
    forall a: nat
      ensures InDhcp(b, a) ==> InBlock(a, base, c.ones + 1)
      ensures InReserved(b, a) ==> !InBlock(a, base, c.ones + 1) && InBlock(a, base, c.ones)
    {
      AlignedInBlock(a, base, half);
      AlignedInBlock(a, base, 2 * half);
    }
  }

  // ---------------------------------------------------------------- dotted decimal

  function Digit(d: nat): char
    requires d < 10
  {
    '0' + d as char
  }

  function Decimal(n: nat): string {
    if n < 10 then [Digit(n)] else Decimal(n / 10) + [Digit(n % 10)]
  }

  /** The four bytes, most significant first. */
  function BytesOf(n: nat): seq<nat> {
    [n / 0x100_0000 % 256, n / 0x1_0000 % 256, n / 0x100 % 256, n % 256]
  }

  function DottedBytes(b: seq<nat>): string
    requires b != []
  {
    if |b| == 1 then Decimal(b[0]) else Decimal(b[0]) + ("." + DottedBytes(b[1..]))
  }

  function Dotted(n: nat): string {
    DottedBytes(BytesOf(n))
  }

  /** The address written into a byte buffer, which is then printed. */
  method IntToIP(n: nat) returns (s: string)
    ensures s == Dotted(n)
  {
    var b := new nat[4];
    b[0], b[1], b[2], b[3] := n / 0x100_0000 % 256, n / 0x1_0000 % 256, n / 0x100 % 256, n % 256;
    assert b[..] == BytesOf(n);
    s := DottedBytes(b[..]);
  }

  // A strict reader of dotted decimal, to check what the printed texts mean.

  predicate IsDigit(c: char) {
    '0' <= c <= '9'
  }

  function DigitValue(c: char): nat
    requires IsDigit(c)
  {
    c as int - '0' as int
  }

  function DigitRun(s: string): (n: nat)
    ensures n <= |s|
    ensures forall k :: 0 <= k < n ==> IsDigit(s[k])
  {
    if s == [] || !IsDigit(s[0]) then 0 else 1 + DigitRun(s[1..])
  }

  function ValueOf(s: string): nat
    requires forall k :: 0 <= k < |s| ==> IsDigit(s[k])
  {
    if s == [] then 0 else 10 * ValueOf(s[..|s| - 1]) + DigitValue(s[|s| - 1])
  }

  /** A decimal number up to max without superfluous leading zeros, and the rest of the text. */
  function ReadNumber(s: string, max: nat): Option<(nat, string)> {
    var n := DigitRun(s);
    if n == 0 || (n > 1 && s[0] == '0') || ValueOf(s[..n]) > max then None
    else Some((ValueOf(s[..n]), s[n..]))
  }

  function ReadDot(s: string): Option<string> {
    if s != [] && s[0] == '.' then Some(s[1..]) else None
  }

  /** `count` more bytes of an address whose higher bytes are `high`. */
  function ReadBytes(s: string, count: nat, high: nat): Option<(nat, string)>
    decreases count
  {
    var r := ReadNumber(s, 255);
    if r.None? then None
    else if count <= 1 then Some((high * 256 + r.value.0, r.value.1))
    else
      var d := ReadDot(r.value.1);
      if d.None? then None else ReadBytes(d.value, count - 1, high * 256 + r.value.0)
  }

  function ReadIP(s: string): Option<nat> {
    var r := ReadBytes(s, 4, 0);
    if r.Some? && r.value.1 == "" then Some(r.value.0) else None
  }

  function ReadCidr(s: string): Option<(nat, nat)> {
    var r := ReadBytes(s, 4, 0);
    if r.None? || r.value.1 == [] || r.value.1[0] != '/' then None
    else
      var p := ReadNumber(r.value.1[1..], 32);
      if p.None? || p.value.1 != "" then None else Some((r.value.0, p.value.0))
  }

  lemma {:induction false} DecimalReads(n: nat)
    ensures Decimal(n) != [] && forall k :: 0 <= k < |Decimal(n)| ==> IsDigit(Decimal(n)[k])
    ensures ValueOf(Decimal(n)) == n
    ensures |Decimal(n)| > 1 ==> Decimal(n)[0] != '0'
  {
    if n < 10 {
      assert Decimal(n)[..0] == [];
    } else {
      DecimalReads(n / 10);
      assert Decimal(n)[..|Decimal(n)| - 1] == Decimal(n / 10);
      if n / 10 < 10 {
        assert Decimal(n / 10)[0] != '0';
      }
    }
  }

  lemma {:induction false} DigitRunStops(p: string, rest: string)
    requires forall k :: 0 <= k < |p| ==> IsDigit(p[k])
    requires rest == [] || !IsDigit(rest[0])
    ensures DigitRun(p + rest) == |p|
  {
    if p == [] {
      assert p + rest == rest;
    } else {
      assert (p + rest)[1..] == p[1..] + rest;
      DigitRunStops(p[1..], rest);
    }
  }

  lemma NumberReads(n: nat, max: nat, rest: string)
    requires n <= max && (rest == [] || !IsDigit(rest[0]))
    ensures ReadNumber(Decimal(n) + rest, max) == Some((n, rest))
  {
    var p := Decimal(n);
    DecimalReads(n);
    DigitRunStops(p, rest);
    assert (p + rest)[..|p|] == p && (p + rest)[|p|..] == rest;
  }

  function Joined(high: nat, b: seq<nat>): nat
    decreases |b|
  {
    if b == [] then high else Joined(high * 256 + b[0], b[1..])
  }

  lemma ByteReads(b: nat, count: nat, high: nat, tail: string)
    requires b < 256 && count > 1
    ensures ReadBytes(Decimal(b) + ("." + tail), count, high) == ReadBytes(tail, count - 1, high * 256 + b)
  {
    NumberReads(b, 255, "." + tail);
    assert ("." + tail)[1..] == tail;
  }

  lemma Regroup(a: string, b: string, c: string)
    ensures (a + ("." + b)) + c == a + ("." + (b + c))
  {
  }

  lemma LastByteReads(b: nat, high: nat, rest: string)
    requires b < 256 && (rest == [] || !IsDigit(rest[0]))
    ensures ReadBytes(DottedBytes([b]) + rest, 1, high) == Some((Joined(high, [b]), rest))
  {
    NumberReads(b, 255, rest);
    assert [b][1..] == [];
  }

  lemma ByteThenReads(b: nat, count: nat, high: nat, text: string, rest: string)
    requires b < 256 && count > 1
    ensures ReadBytes(Decimal(b) + ("." + text) + rest, count, high) == ReadBytes(text + rest, count - 1, high * 256 + b)
  {
    ByteReads(b, count, high, text + rest);
    Regroup(Decimal(b), text, rest);
  }

  lemma FirstByteReads(b: seq<nat>, high: nat, rest: string)
    requires |b| > 1 && b[0] < 256
    ensures ReadBytes(DottedBytes(b) + rest, |b|, high) == ReadBytes(DottedBytes(b[1..]) + rest, |b| - 1, high * 256 + b[0])
  {
    ByteThenReads(b[0], |b|, high, DottedBytes(b[1..]), rest);
  }

  lemma {:induction false} BytesRead(b: seq<nat>, high: nat, rest: string)
    requires b != [] && forall k :: 0 <= k < |b| ==> b[k] < 256
    requires rest == [] || !IsDigit(rest[0])
    ensures ReadBytes(DottedBytes(b) + rest, |b|, high) == Some((Joined(high, b), rest))
    decreases |b|
  {
    if |b| == 1 {
      LastByteReads(b[0], high, rest);
      assert b == [b[0]];
    } else {
      FirstByteReads(b, high, rest);
      BytesRead(b[1..], high * 256 + b[0], rest);
    }
  }

  lemma JoinedFour(b0: nat, b1: nat, b2: nat, b3: nat)
    ensures Joined(0, [b0, b1, b2, b3]) == ((b0 * 256 + b1) * 256 + b2) * 256 + b3
  {
    var b := [b0, b1, b2, b3];
    assert b[1..] == [b1, b2, b3] && [b1, b2, b3][1..] == [b2, b3];
    assert [b2, b3][1..] == [b3] && [b3][1..] == [];
    var j := b0 * 256 + b1;
    assert Joined(j * 256 + b2, [b3]) == Joined((j * 256 + b2) * 256 + b3, []);
    assert Joined(j, [b2, b3]) == Joined(j * 256 + b2, [b3]);
    assert Joined(b0, [b1, b2, b3]) == Joined(j, [b2, b3]);
  }

  lemma BytesJoin(n: nat)
    requires n < TWO_32
    ensures Joined(0, BytesOf(n)) == n
  {
    var b := BytesOf(n);
    JoinedFour(b[0], b[1], b[2], b[3]);
    BytesAddUp(n);
  }

  lemma DivTwice(n: nat)
    ensures n / 0x1_0000 == n / 0x100 / 0x100 && n / 0x100_0000 == n / 0x1_0000 / 0x100
  {
  }

  lemma BytesAddUp(n: nat)
    requires n < TWO_32
    ensures ((n / 0x100_0000 % 256 * 256 + n / 0x1_0000 % 256) * 256 + n / 0x100 % 256) * 256 + n % 256 == n
  {
    var a, b, c := n / 0x100, n / 0x1_0000, n / 0x100_0000;
    DivTwice(n);
    assert c < 256;
    assert b == 256 * c + b % 256 && a == 256 * b + a % 256 && n == 256 * a + n % 256;
  }

  /** Reading an address back gives the number that was printed, and stops right behind it. */
  lemma DottedReads(n: nat, rest: string)
    requires n < TWO_32 && (rest == [] || !IsDigit(rest[0]))
    ensures ReadBytes(Dotted(n) + rest, 4, 0) == Some((n, rest))
  {
    BytesRead(BytesOf(n), 0, rest);
    BytesJoin(n);
  }

  /** The four texts as numbers. */
  function ReadSplit(s: Split): Option<Bounds> {
    var a, b, c, d := ReadIP(s.dhcpStart), ReadIP(s.dhcpEnd), ReadIP(s.reservedStart), ReadIP(s.reservedEnd);
    if a.None? || b.None? || c.None? || d.None? then None
    else Some(Bounds(a.value, b.value, c.value, d.value))
  }

  /** The four printed bounds of a split read back as the four numbers. */
  lemma SplitReadsBack(c: Cidr)
    requires WellFormed(c) && Splittable(c)
    ensures SplitSubnet(c).Ok? && ReadSplit(SplitSubnet(c).value) == Some(BoundsOf(Network(c), c.ones))
  {
    SplitTexts(c);
    BoundsAreAddresses(Network(c), c.ones);
    PrintedReadBack(SplitSubnet(c).value, BoundsOf(Network(c), c.ones));
  }

  function Printed(b: Bounds): Split {
    Split(Dotted(b.dhcpStart), Dotted(b.dhcpEnd), Dotted(b.reservedStart), Dotted(b.reservedEnd))
  }

  lemma SplitTexts(c: Cidr)
    requires WellFormed(c) && Splittable(c)
    ensures SplitSubnet(c) == Ok(Printed(BoundsOf(Network(c), c.ones)))
  {
  }

  lemma PrintedReadBack(s: Split, b: Bounds)
    requires s == Printed(b)
    requires b.dhcpStart < TWO_32 && b.dhcpEnd < TWO_32 && b.reservedStart < TWO_32 && b.reservedEnd < TWO_32
    ensures ReadSplit(s) == Some(b)
  {
    AddressReadsBack(b.dhcpStart);
    AddressReadsBack(b.dhcpEnd);
    AddressReadsBack(b.reservedStart);
    AddressReadsBack(b.reservedEnd);
  }

  lemma BoundsAreAddresses(base: nat, ones: nat)
    requires ones <= 32
    ensures var b := BoundsOf(base, ones);
            b.dhcpStart < TWO_32 && b.dhcpEnd < TWO_32 && b.reservedStart < TWO_32 && b.reservedEnd < TWO_32
  {
  }

  lemma AddressReadsBack(n: nat)
    requires n < TWO_32
    ensures ReadIP(Dotted(n)) == Some(n)
  {
    DottedReads(n, "");
    assert Dotted(n) + "" == Dotted(n);
  }

  lemma CidrReads(network: nat, ones: nat)
    requires network < TWO_32 && ones <= 32
    ensures ReadCidr(Dotted(network) + ("/" + Decimal(ones))) == Some((network, ones))
  {
    var tail := "/" + Decimal(ones);
    DottedReads(network, tail);
    NumberReads(ones, 32, "");
    assert tail[1..] == Decimal(ones) && Decimal(ones) + "" == Decimal(ones);
  }

  /** DHCPRangeCIDR names the same network with one more prefix bit, and is empty exactly when
      SplitSubnet fails. */
  lemma DhcpCidrReadsBack(c: Cidr)
    requires WellFormed(c)
    ensures SplitSubnet(c).Ok? <==> Splittable(c)
    ensures c.Malformed? ==> SplitSubnet(c) == Err(Invalid)
    ensures c.V6? ==> SplitSubnet(c) == Err(NotIPv4)
    ensures c.V4? && c.ones >= 31 ==> SplitSubnet(c) == Err(TooSmall)
    ensures Splittable(c) ==> ReadCidr(DHCPRangeCIDR(c)) == Some((Network(c), c.ones + 1))
    ensures DHCPRangeCIDR(c) == "" <==> !Splittable(c)
  {
    if c.V4? && c.ones < 31 {
      CidrReads(Network(c), c.ones + 1);
      Regrouped(Dotted(Network(c)), Decimal(c.ones + 1));
    }
  }

  lemma Regrouped(a: string, b: string)
    ensures a + "/" + b == a + ("/" + b) != ""
  {
  }

  // ---------------------------------------------------------------- the block of the parsed address

  /** The block of `size` addresses from `base` on is aligned and holds the address. There is only one. */
  predicate BlockHolds(base: int, size: nat, addr: nat)
    requires size > 0
  {
    base % size == 0 && base <= addr < base + size
  }

  lemma BlockIsUnique(base: nat, other: nat, size: nat, addr: nat)
    requires size > 0 && BlockHolds(base, size, addr) && BlockHolds(other, size, addr)
    ensures base == other
  {
    AlignedInBlock(addr, base, size);
    AlignedInBlock(addr, other, size);
  }

  lemma ClearedHolds(addr: nat, size: nat)
    requires size > 0
    ensures BlockHolds(Cleared(addr, size), size, addr)
  {
    ClearedIsAligned(addr, size);
    AlignedInBlock(addr, Cleared(addr, size), size);
  }

  /** The bounds are those of the two halves of the block from `base` on. */
  predicate AreHalves(b: Bounds, base: int, size: nat) {
    && b.dhcpStart == base + 1 && b.dhcpEnd == base + size / 2 - 1
    && b.reservedStart == base + size / 2 && b.reservedEnd == base + size - 2
  }

  lemma BoundsAreHalves(c: Cidr)
    requires WellFormed(c) && c.V4? && 1 <= c.ones <= 30
    ensures AreHalves(BoundsOf(Network(c), c.ones), Network(c), Pow2(32 - c.ones))
  {
    var half := BlockShape(c);
  }

  /** The four texts read as the bounds of the two halves of the block that holds the parsed address, for
      every prefix from 1 to 30. */
  lemma SplitIsOfAddressBlock(c: Cidr)
    requires WellFormed(c) && c.V4? && 1 <= c.ones <= 30
    ensures SplitSubnet(c).Ok? && ReadSplit(SplitSubnet(c).value).Some?
    ensures var b, size := ReadSplit(SplitSubnet(c).value).value, Pow2(32 - c.ones);
            AreHalves(b, b.dhcpStart - 1, size) && BlockHolds(b.dhcpStart - 1, size, c.addr)
  {
    SplitReadsBack(c);
    BoundsAreHalves(c);
    ClearedHolds(c.addr, Pow2(32 - c.ones));
  }

  /** The DHCP text of every block that can be split names, with one prefix bit more, the network of the
      block that holds the parsed address. */
  lemma DhcpCidrIsOfAddressBlock(c: Cidr)
    requires WellFormed(c) && Splittable(c)
    ensures ReadCidr(DHCPRangeCIDR(c)).Some?
    ensures var (network, ones) := ReadCidr(DHCPRangeCIDR(c)).value;
            ones == c.ones + 1 && BlockHolds(network, Pow2(32 - c.ones), c.addr)
  {
    DhcpCidrReadsBack(c);
    ClearedHolds(c.addr, Pow2(32 - c.ones));
  }
}
