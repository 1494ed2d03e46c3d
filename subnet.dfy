/**
 * Subnet arithmetic of the scanner: the network address of an interface is the
 * octet-wise AND of its address and netmask, and the prefix length is the number
 * of set bits in the netmask. Octets arrive already split and converted to
 * integers; the result is rendered as "a.b.c.d/p".
 */
module Subnet {
  import opened Wrappers
  import opened Text

  // ---------------------------------------------------------------------------
  // Bit arithmetic on non-negative integers

  /** Python's `a & b` on non-negative integers. */
  function BitAnd(a: nat, b: nat): nat
  {
    if a == 0 || b == 0 then 0
    else 2 * BitAnd(a / 2, b / 2) + (if a % 2 == 1 && b % 2 == 1 then 1 else 0)
  }

  /** `bin(n).count('1')`. */
  function PopCount(n: nat): nat
  {
    if n == 0 then 0 else n % 2 + PopCount(n / 2)
  }

  /** Bit `k` of `n`, bit 0 being the least significant. */
  function Bit(n: nat, k: nat): bool
  {
    if k == 0 then n % 2 == 1 else Bit(n / 2, k - 1)
  }

  function Pow2(k: nat): (r: nat)
    ensures r >= 1
  {
    if k == 0 then 1 else 2 * Pow2(k - 1)
  }

  lemma {:induction false} BitOfZero(k: nat)
    ensures !Bit(0, k)
  {
    if k > 0 {
      BitOfZero(k - 1);
    }
  }

  /** BitAnd is the bitwise conjunction: each bit of the result is set exactly when it is set in both operands. */
  lemma {:induction false} BitAndIsBitwise(a: nat, b: nat, k: nat)
    ensures Bit(BitAnd(a, b), k) == (Bit(a, k) && Bit(b, k))
  {
    if a == 0 || b == 0 {
      BitOfZero(k);
    } else {
      var q := BitAnd(a / 2, b / 2);
      var c := if a % 2 == 1 && b % 2 == 1 then 1 else 0;
      HalveDouble(q, c);
      if k > 0 {
        BitAndIsBitwise(a / 2, b / 2, k - 1);
      }
    }
  }

  lemma HalveDouble(q: nat, c: nat)
    requires c < 2
    ensures (2 * q + c) / 2 == q && (2 * q + c) % 2 == c
  {
  }

  /** Masking never increases a value. */
  lemma {:induction false} BitAndBelow(a: nat, b: nat)
    ensures BitAnd(a, b) <= a && BitAnd(a, b) <= b
  {
    if a != 0 && b != 0 {
      BitAndBelow(a / 2, b / 2);
    }
  }

  /** A number below 2^k has at most k set bits. */
  lemma {:induction false} PopCountBound(n: nat, k: nat)
    requires n < Pow2(k)
    ensures PopCount(n) <= k
  {
    if k > 0 && n > 0 {
      PopCountBound(n / 2, k - 1);
    }
  }

  // ---------------------------------------------------------------------------
  // calculate_subnet

  /** A network in CIDR notation: its address octets and its prefix length. */
  datatype Cidr = Cidr(network: seq<nat>, prefix: nat)

  /** The prefix length: the set bits of every mask octet, summed. */
  function PrefixLength(mask: seq<nat>): nat
  {
    if |mask| == 0 then 0 else PopCount(mask[0]) + PrefixLength(mask[1..])
  }

  /**
   * The network of an address and a netmask. Only the first four address and
   * mask octets form the network, but every mask octet counts towards the
   * prefix; fewer than four octets on either side is the source's IndexError.
   */
  function ComputeCidr(ip: seq<nat>, mask: seq<nat>): Option<Cidr>
  {
    if |ip| < 4 || |mask| < 4 then None
    else Some(Cidr([BitAnd(ip[0], mask[0]), BitAnd(ip[1], mask[1]),
                    BitAnd(ip[2], mask[2]), BitAnd(ip[3], mask[3])],
                   PrefixLength(mask)))
  }

  function OctetStrings(octets: seq<nat>): (r: seq<string>)
    ensures |r| == |octets|
  {
    if |octets| == 0 then [] else [NatToString(octets[0])] + OctetStrings(octets[1..])
  }

  /** `'.'.join(network) + '/' + str(cidr)`. */
  function Render(c: Cidr): string
  {
    Join(OctetStrings(c.network), '.') + "/" + NatToString(c.prefix)
  }

  /** calculate_subnet; None stands for the exception the caller catches. */
  function CalculateSubnet(ip: seq<nat>, mask: seq<nat>): Option<string>
  {
    match ComputeCidr(ip, mask)
    case None => None
    case Some(c) => Some(Render(c))
  }

  /** The failure case: calculate_subnet fails exactly when an octet list has fewer than four entries. */
  lemma CalculateSubnetFails(ip: seq<nat>, mask: seq<nat>)
    ensures CalculateSubnet(ip, mask).None? <==> |ip| < 4 || |mask| < 4
  {
  }

  /**
   * Network octet i keeps exactly the bits set in both address octet i and mask
   * octet i, so it never exceeds either, and the prefix counts the mask's set bits.
   */
  lemma NetworkIsMasked(ip: seq<nat>, mask: seq<nat>, i: nat, k: nat)
    requires |ip| >= 4 && |mask| >= 4 && i < 4
    ensures ComputeCidr(ip, mask).Some?
    ensures var c := ComputeCidr(ip, mask).value;
      && |c.network| == 4
      && (Bit(c.network[i], k) <==> Bit(ip[i], k) && Bit(mask[i], k))
      && c.network[i] <= ip[i] && c.network[i] <= mask[i]
      && c.prefix == PrefixLength(mask)
  {
    BitAndIsBitwise(ip[i], mask[i], k);
    BitAndBelow(ip[i], mask[i]);
  }

  /** With octets below 256 the prefix is at most 8 bits per mask octet. */
  lemma {:induction false} PrefixLengthBound(mask: seq<nat>)
    requires forall i :: 0 <= i < |mask| ==> mask[i] < 256
    ensures PrefixLength(mask) <= 8 * |mask|
  {
    if |mask| > 0 {
      assert Pow2(8) == 256;
      PopCountBound(mask[0], 8);
      PrefixLengthBound(mask[1..]);
    }
  }

  /** For a four-octet netmask the prefix length lies in 0..32. */
  lemma PrefixAtMost32(ip: seq<nat>, mask: seq<nat>)
    requires |ip| >= 4 && |mask| == 4
    requires forall i :: 0 <= i < 4 ==> mask[i] < 256
    ensures ComputeCidr(ip, mask).Some? && 0 <= ComputeCidr(ip, mask).value.prefix <= 32
  {
    PrefixLengthBound(mask);
  }

  /** 192.168.1.42 with netmask 255.255.255.0 is the network 192.168.1.0/24. */
  lemma CalculateSubnetExample()
    ensures CalculateSubnet([192, 168, 1, 42], [255, 255, 255, 0]) == Some("192.168.1.0/24")
  {
    assert Pow2(8) == 256;
    BitAndAllOnes(192, 8);
    BitAndAllOnes(168, 8);
    BitAndAllOnes(1, 8);
    OctetMaskPopCount(8);
    assert PrefixLength([255, 255, 255, 0]) == 24 by {
      assert [255, 255, 255, 0][1..] == [255, 255, 0];
      assert [255, 255, 0][1..] == [255, 0];
      assert [255, 0][1..] == [0];
    }
    var c := Cidr([192, 168, 1, 0], 24);
    assert ComputeCidr([192, 168, 1, 42], [255, 255, 255, 0]) == Some(c);
    RenderFallback();
  }

  /** Masking with an all-ones octet keeps the value. */
  lemma {:induction false} BitAndAllOnes(a: nat, k: nat)
    requires a < Pow2(k)
    ensures BitAnd(a, Pow2(k) - 1) == a
  {
    if a != 0 && k > 0 {
      BitAndAllOnes(a / 2, k - 1);
      assert (Pow2(k) - 1) / 2 == Pow2(k - 1) - 1;
      assert (Pow2(k) - 1) % 2 == 1;
    }
  }

  // ---------------------------------------------------------------------------
  // Netmasks built from a prefix length: the prefix is recovered

  /** The mask octet with its `m` leading bits set. */
  function OctetMask(m: nat): nat
    requires m <= 8
  {
    [0, 128, 192, 224, 240, 248, 252, 254, 255][m]
  }

  function Clamp8(x: int): (r: nat)
    ensures r <= 8
  {
    if x < 0 then 0 else if x > 8 then 8 else x
  }

  /** The dotted-quad netmask of a /p network. */
  function MaskOfPrefix(p: nat): seq<nat>
    requires p <= 32
  {
    [OctetMask(Clamp8(p)), OctetMask(Clamp8(p - 8)), OctetMask(Clamp8(p - 16)), OctetMask(Clamp8(p - 24))]
  }

  /** A run of m set bits has popcount m. */
  lemma {:induction false} OnesPopCount(m: nat)
    ensures PopCount(Pow2(m) - 1) == m
  {
    if m > 0 {
      OnesPopCount(m - 1);
      assert Pow2(m) - 1 == 2 * (Pow2(m - 1) - 1) + 1;
    }
  }

  /** Shifting left adds no set bit. */
  lemma {:induction false} ShiftPopCount(n: nat, z: nat, x: nat)
    requires x == n * Pow2(z)
    ensures PopCount(x) == PopCount(n)
  {
    if z > 0 {
      var p := Pow2(z - 1);
      var y := n * p;
      ShiftPopCount(n, z - 1, y);
      DoubleProduct(n, p);
      PopCountDouble(y);
    }
  }

  lemma DoubleProduct(n: nat, p: nat)
    ensures n * (2 * p) == 2 * (n * p)
  {
  }

  lemma PopCountDouble(y: nat)
    ensures PopCount(2 * y) == PopCount(y)
  {
  }

  /** The mask octet with m leading ones is m ones shifted left by 8 - m. */
  lemma OctetMaskShape(m: nat, ones: nat)
    requires m <= 8 && ones == Pow2(m) - 1
    ensures OctetMask(m) == ones * Pow2(8 - m)
  {
    assert Pow2(0) == 1 && Pow2(1) == 2 && Pow2(2) == 4 && Pow2(3) == 8 && Pow2(4) == 16;
    assert Pow2(5) == 32 && Pow2(6) == 64 && Pow2(7) == 128 && Pow2(8) == 256;
  }

  /** An octet of m leading ones has popcount m. */
  lemma OctetMaskPopCount(m: nat)
    requires m <= 8
    ensures PopCount(OctetMask(m)) == m
  {
    var ones := Pow2(m) - 1;
    OctetMaskShape(m, ones);
    ShiftPopCount(ones, 8 - m, OctetMask(m));
    OnesPopCount(m);
  }

  /** Counting the set bits of the netmask of a /p network gives back p. */
  lemma PrefixOfMask(p: nat)
    requires p <= 32
    ensures PrefixLength(MaskOfPrefix(p)) == p
  {
    var m := MaskOfPrefix(p);
    OctetMaskPopCount(Clamp8(p));
    OctetMaskPopCount(Clamp8(p - 8));
    OctetMaskPopCount(Clamp8(p - 16));
    OctetMaskPopCount(Clamp8(p - 24));
    PrefixLengthOfFour(m);
  }

  lemma PrefixLengthOfFour(m: seq<nat>)
    requires |m| == 4
    ensures PrefixLength(m) == PopCount(m[0]) + PopCount(m[1]) + PopCount(m[2]) + PopCount(m[3])
  {
    var t1 := m[1..];
    var t2 := t1[1..];
    var t3 := t2[1..];
    assert t3[1..] == [];
    assert PrefixLength(t3) == PopCount(m[3]) + PrefixLength(t3[1..]);
    assert PrefixLength(t2) == PopCount(m[2]) + PrefixLength(t3);
    assert PrefixLength(t1) == PopCount(m[1]) + PrefixLength(t2);
  }

  // ---------------------------------------------------------------------------
  // Reading a rendered network back

  /** Parses "a.b.c.d/p" with decimal octets and prefix. */
  function ParseCidr(s: string): Option<Cidr>
  {
    var halves := Split(s, '/');
    if |halves| != 2 then None
    else
      var parts := Split(halves[0], '.');
      if |parts| != 4 || !(forall i :: 0 <= i < 4 ==> |parts[i]| > 0 && AllDigits(parts[i]))
         || |halves[1]| == 0 || !AllDigits(halves[1])
      then None
      else Some(Cidr([DecimalValue(parts[0]), DecimalValue(parts[1]), DecimalValue(parts[2]), DecimalValue(parts[3])],
                     DecimalValue(halves[1])))
  }

  lemma {:induction false} OctetStringsDigits(octets: seq<nat>)
    ensures forall i :: 0 <= i < |octets| ==>
      OctetStrings(octets)[i] == NatToString(octets[i]) && |OctetStrings(octets)[i]| > 0 && AllDigits(OctetStrings(octets)[i])
  {
    if |octets| > 0 {
      OctetStringsDigits(octets[1..]);
      forall i | 0 <= i < |octets|
        ensures |NatToString(octets[i])| > 0 && AllDigits(NatToString(octets[i]))
      {
        NatToStringRoundTrip(octets[i]);
      }
    }
  }

  lemma DigitsAvoid(s: string, c: char)
    requires AllDigits(s) && !IsDigit(c)
    ensures c !in s
  {
  }

  /** A rendered four-octet network reads back as the same network. */
  lemma ParseRender(c: Cidr)
    requires |c.network| == 4
    ensures ParseCidr(Render(c)) == Some(c)
  {
    var strs := OctetStrings(c.network);
    OctetStringsDigits(c.network);
    var dotted := Join(strs, '.');
    var p := NatToString(c.prefix);
    NatToStringRoundTrip(c.prefix);
    forall i | 0 <= i < 4 ensures '/' !in strs[i] && '.' !in strs[i] {
      DigitsAvoid(strs[i], '/');
      DigitsAvoid(strs[i], '.');
    }
    JoinAvoids(strs, '.', '/');
    DigitsAvoid(p, '/');
    assert Render(c) == Join([dotted, p], '/');
    SplitJoin([dotted, p], '/');
    SplitJoin(strs, '.');
    forall i | 0 <= i < 4 ensures DecimalValue(strs[i]) == c.network[i] {
      NatToStringRoundTrip(c.network[i]);
    }
    assert [DecimalValue(strs[0]), DecimalValue(strs[1]), DecimalValue(strs[2]), DecimalValue(strs[3])] == c.network;
  }

  // ---------------------------------------------------------------------------
  // get_default_gateway_subnet, reduced to its fallback

  const FallbackSubnet: string := "192.168.1.0/24"

  /**
   * The default subnet: the network of the default interface's address and
   * netmask, or the fixed fallback when they cannot be read (`None`) or do not
   * form a network. The result always reads back as a four-octet network.
   */
  function DefaultSubnet(gateway: Option<(seq<nat>, seq<nat>)>): (r: string)
    ensures ParseCidr(r).Some? && |ParseCidr(r).value.network| == 4
    ensures gateway.None? ==> r == FallbackSubnet
  {
    match gateway
    case None => FallbackLemma(); FallbackSubnet
    case Some((ip, mask)) =>
      match ComputeCidr(ip, mask)
      case None => FallbackLemma(); FallbackSubnet
      case Some(c) => ParseRender(c); Render(c)
  }

  lemma RenderFallback()
    ensures Render(Cidr([192, 168, 1, 0], 24)) == FallbackSubnet
  {
    FallbackOctets();
    FallbackPrefix();
    FallbackJoin();
  }

  lemma FallbackOctets()
    ensures OctetStrings([192, 168, 1, 0]) == ["192", "168", "1", "0"]
  {
    NatToString192();
    NatToString168();
    assert [192, 168, 1, 0][1..] == [168, 1, 0];
    assert [168, 1, 0][1..] == [1, 0];
    assert [1, 0][1..] == [0];
  }

  lemma NatToString192()
    ensures NatToString(192) == "192"
  {
    assert NatToString(19) == "19";
  }

  lemma NatToString168()
    ensures NatToString(168) == "168"
  {
    assert NatToString(16) == "16";
  }

  lemma FallbackPrefix()
    ensures NatToString(24) == "24"
  {
  }

  lemma FallbackJoin()
    ensures Join(["192", "168", "1", "0"], '.') + "/" + "24" == FallbackSubnet
  {
    var parts := ["192", "168", "1", "0"];
    assert parts[1..] == ["168", "1", "0"];
    assert parts[1..][1..] == ["1", "0"];
    assert parts[1..][1..][1..] == ["0"];
    assert Join(["1", "0"], '.') == "1.0";
    assert Join(["168", "1", "0"], '.') == "168.1.0";
    assert Join(parts, '.') == "192.168.1.0";
  }

  lemma FallbackLemma()
    ensures ParseCidr(FallbackSubnet) == Some(Cidr([192, 168, 1, 0], 24))
  {
    RenderFallback();
    ParseRender(Cidr([192, 168, 1, 0], 24));
  }
}
