/**
 * IPv4 networks as `discover_magewell` and `get_local_subnet` use them
 * (backend/app.py): `ipaddress.ip_network(text, strict=False)` parsing,
 * masking an address to its network, `str()` of addresses and networks, and
 * `network.hosts()` enumeration, after CIDR notation (section 3.1 of RFC 4632).
 *
 * Addresses are 32-bit numbers. Masking is arithmetic: clearing the low
 * `32 - prefix` bits of `a` leaves `a - a % 2^(32 - prefix)`.
 */
module Ipv4 {
  import opened Wrappers
  import opened Strings

  const AddressSpace: nat := 0x1_0000_0000

  type Address = a: int | 0 <= a < 0x1_0000_0000

  function Pow2(n: nat): (r: nat)
    ensures r >= 1
  {
    if n == 0 then 1 else 2 * Pow2(n - 1)
  }

  lemma {:induction false} Pow2Add(m: nat, n: nat)
    ensures Pow2(m + n) == Pow2(m) * Pow2(n)
    decreases m
  {
    if m > 0 {
      Pow2Add(m - 1, n);
      assert Pow2(m + n) == 2 * Pow2(m - 1 + n);
    }
  }

  lemma {:induction false} Pow2Increasing(m: nat, n: nat)
    requires m < n
    ensures Pow2(m) < Pow2(n)
    decreases n
  {
    if m < n - 1 {
      Pow2Increasing(m, n - 1);
    }
  }

  lemma Pow2ThirtyTwo()
    ensures Pow2(32) == AddressSpace
  {
    assert Pow2(8) == 0x100;
    assert Pow2(16) == 0x1_0000;
    assert Pow2(24) == 0x100_0000;
  }

  lemma MulBound(d: int, b: int)
    requires b > 0
    ensures d >= 1 ==> d * b >= b
    ensures d <= -1 ==> d * b <= -b
  {
  }

  /** Euclidean division is unique: `q` and `r` are the quotient and remainder of `x` by `b`. */
  lemma DivModUnique(x: int, b: int, q: int, r: int)
    requires b > 0 && x == q * b + r && 0 <= r < b
    ensures x / b == q && x % b == r
  {
    assert (q - x / b) * b == x % b - r;
    MulBound(q - x / b, b);
  }

  /** Number of addresses in a block with this prefix length. */
  function BlockSize(prefix: nat): (b: nat)
    requires prefix <= 32
    ensures 1 <= b <= AddressSpace
  {
    Pow2ThirtyTwo();
    assert Pow2(32 - prefix) <= Pow2(32) by {
      if prefix > 0 {
        Pow2Increasing(32 - prefix, 32);
      }
    }
    Pow2(32 - prefix)
  }

  /** A block divides the address space: `2^32 == block * 2^prefix`. */
  lemma BlockDividesSpace(prefix: nat)
    requires prefix <= 32
    ensures BlockSize(prefix) * Pow2(prefix) == AddressSpace
  {
    Pow2Add(32 - prefix, prefix);
    Pow2ThirtyTwo();
  }

  /** The netmask with `prefix` leading one bits, as a number. */
  function Netmask(prefix: nat): Address
    requires prefix <= 32
  {
    AddressSpace - BlockSize(prefix)
  }

  /** Distinct prefix lengths have distinct netmasks. */
  lemma NetmaskInjective(p: nat, q: nat)
    requires p <= 32 && q <= 32 && p != q
    ensures Netmask(p) != Netmask(q)
  {
    if p < q {
      Pow2Increasing(32 - q, 32 - p);
    } else {
      Pow2Increasing(32 - p, 32 - q);
    }
  }

  /** `address & netmask`: the first address of the block that holds `a`. */
  function MaskAddress(a: Address, prefix: nat): (n: Address)
    requires prefix <= 32
    ensures n <= a < n + BlockSize(prefix)
    ensures n % BlockSize(prefix) == 0
  {
    var b := BlockSize(prefix);
    RoundDown(a, b);
    a - a % b
  }

  /** Rounding down to a multiple of `b` stays within `b` below the number. */
  lemma RoundDown(a: nat, b: nat)
    requires b > 0
    ensures 0 <= a - a % b <= a < a - a % b + b
    ensures (a - a % b) % b == 0
  {
    DivModUnique(a - a % b, b, a / b, 0);
  }

  /** An IPv4 network: a block-aligned address and a prefix length. */
  datatype Network = Network(address: Address, prefix: nat)

  predicate ValidNetwork(n: Network)
  {
    n.prefix <= 32 && n.address % BlockSize(n.prefix) == 0
  }

  lemma AlignedFits(a: int, b: int, p: int)
    requires b > 0 && 0 <= a < b * p && a % b == 0
    ensures a + b <= b * p
  {
    assert b * p == p * b;
    var k := a / b;
    assert a == k * b;
    assert (k - p + 1) * b == k * b - p * b + b;
    MulBound(k - p + 1, b);
    assert (p - k) * b == p * b - k * b;
    MulBound(p - k, b);
  }

  /** An aligned block never runs past the end of the address space. */
  lemma BlockFits(n: Network)
    requires ValidNetwork(n)
    ensures n.address + BlockSize(n.prefix) <= AddressSpace
  {
    var b, p := BlockSize(n.prefix), Pow2(n.prefix);
    BlockDividesSpace(n.prefix);
    assert b * p == AddressSpace;
    AlignedFits(n.address, b, p);
  }

  /** The last address of the network. */
  function Broadcast(n: Network): (b: Address)
    requires ValidNetwork(n)
    ensures n.address <= b
  {
    BlockFits(n);
    n.address + BlockSize(n.prefix) - 1
  }

  /**
   * `network.hosts()` by the general rule: every address strictly between
   * the network address and the broadcast address, in increasing order.
   */
  function Hosts(n: Network): (hs: seq<Address>)
    requires ValidNetwork(n)
    ensures |hs| == if BlockSize(n.prefix) >= 2 then BlockSize(n.prefix) - 2 else 0
    ensures forall i :: 0 <= i < |hs| ==> hs[i] == n.address + 1 + i
  {
    BlockFits(n);
    var count := if BlockSize(n.prefix) >= 2 then BlockSize(n.prefix) - 2 else 0;
    seq(count, i requires 0 <= i < count => n.address + 1 + i)
  }

  /** The hosts are exactly the addresses strictly inside the block. */
  lemma HostsExactly(n: Network, a: Address)
    requires ValidNetwork(n)
    ensures a in Hosts(n) <==> n.address < a < Broadcast(n)
  {
    var hs := Hosts(n);
    if n.address < a < Broadcast(n) {
      assert hs[a - n.address - 1] == a;
    }
  }

  /** Host order is increasing address order, so no host appears twice. */
  lemma HostsIncreasing(n: Network, i: int, j: int)
    requires ValidNetwork(n)
    requires 0 <= i < j < |Hosts(n)|
    ensures Hosts(n)[i] < Hosts(n)[j]
  {
  }

  /** A block of size 2^(32 - prefix) has 2^(32 - prefix) - 2 hosts, for prefixes up to 30. */
  lemma HostCount(n: Network)
    requires ValidNetwork(n) && n.prefix <= 30
    ensures |Hosts(n)| == Pow2(32 - n.prefix) - 2
  {
    Pow2Increasing(1, 32 - n.prefix);
    assert Pow2(1) == 2;
  }

  // ---- Text forms ----

  function Octets(a: Address): seq<nat>
  {
    [a / 0x100_0000, a / 0x1_0000 % 0x100, a / 0x100 % 0x100, a % 0x100]
  }

  function FromOctets(o0: nat, o1: nat, o2: nat, o3: nat): nat
  {
    ((o0 * 0x100 + o1) * 0x100 + o2) * 0x100 + o3
  }

  lemma OctetsRoundTrip(a: Address)
    ensures FromOctets(Octets(a)[0], Octets(a)[1], Octets(a)[2], Octets(a)[3]) == a
    ensures forall i :: 0 <= i < 4 ==> Octets(a)[i] <= 255
  {
    assert a / 0x100 == (a / 0x1_0000) * 0x100 + a / 0x100 % 0x100;
    assert a / 0x1_0000 == (a / 0x100_0000) * 0x100 + a / 0x1_0000 % 0x100;
  }

  /** `str(address)`: four decimal octets joined by dots. */
  function FormatAddress(a: Address): (s: string)
    ensures 7 <= |s| <= 15
  {
    var o := Octets(a);
    OctetsRoundTrip(a);
    JoinFour(Decimal(o[0]), Decimal(o[1]), Decimal(o[2]), Decimal(o[3]), ".");
    Join([Decimal(o[0]), Decimal(o[1]), Decimal(o[2]), Decimal(o[3])], ".")
  }

  /**
   * One dotted-quad field, as Python's `ipaddress` reads it: ASCII digits
   * only, at most three of them, no leading zero except "0" itself, and a
   * value of at most 255.
   */
  function ParseOctet(s: string): (r: Option<nat>)
    ensures r.Some? <==> IsDecimal(s) && |s| <= 3 && (s[0] == '0' ==> s == "0") && DigitsValue(s) <= 255
    ensures r.Some? ==> r.value == DigitsValue(s)
  {
    if !IsDecimal(s) then None
    else if |s| > 3 then None
    else if s != "0" && s[0] == '0' then None
    else if DigitsValue(s) > 255 then None
    else Some(DigitsValue(s))
  }

  /** An IPv4 address in dotted-quad form; anything else is rejected. */
  function ParseAddress(s: string): (r: Option<Address>)
  {
    var parts := Split(s, '.');
    if |parts| != 4 then None
    else
      match (ParseOctet(parts[0]), ParseOctet(parts[1]), ParseOctet(parts[2]), ParseOctet(parts[3]))
      case (Some(o0), Some(o1), Some(o2), Some(o3)) => Some(FromOctets(o0, o1, o2, o3))
      case _ => None
  }

  lemma DecimalOctet(o: nat)
    requires o <= 255
    ensures ParseOctet(Decimal(o)) == Some(o)
  {
  }

  lemma DecimalHasNo(n: nat, c: char)
    requires !IsDigit(c)
    ensures c !in Decimal(n)
  {
  }

  /** Parsing a formatted address gives the address back. */
  lemma AddressRoundTrip(a: Address)
    ensures ParseAddress(FormatAddress(a)) == Some(a)
  {
    var o := Octets(a);
    OctetsRoundTrip(a);
    var parts := [Decimal(o[0]), Decimal(o[1]), Decimal(o[2]), Decimal(o[3])];
    forall i | 0 <= i < 4
      ensures '.' !in parts[i] && ParseOctet(parts[i]) == Some(o[i])
    {
      DecimalHasNo(o[i], '.');
      DecimalOctet(o[i]);
    }
    SplitJoin(parts, '.');
  }

  /** An accepted dotted-quad field is the decimal text of its value: no other spelling passes. */
  lemma OctetCanonical(s: string)
    requires ParseOctet(s).Some?
    ensures s == Decimal(ParseOctet(s).value)
  {
    DecimalCanonical(s);
  }

  /** Splitting a number built from four octets gives the octets back. */
  lemma OctetsOfFromOctets(o0: nat, o1: nat, o2: nat, o3: nat)
    requires o0 <= 255 && o1 <= 255 && o2 <= 255 && o3 <= 255
    ensures FromOctets(o0, o1, o2, o3) < AddressSpace
    ensures Octets(FromOctets(o0, o1, o2, o3)) == [o0, o1, o2, o3]
  {
    var x := FromOctets(o0, o1, o2, o3);
    DivModUnique(x, 0x100_0000, o0, (o1 * 0x100 + o2) * 0x100 + o3);
    DivModUnique(x, 0x1_0000, o0 * 0x100 + o1, o2 * 0x100 + o3);
    DivModUnique(x, 0x100, (o0 * 0x100 + o1) * 0x100 + o2, o3);
    DivModUnique(o0 * 0x100 + o1, 0x100, o0, o1);
    DivModUnique((o0 * 0x100 + o1) * 0x100 + o2, 0x100, o0 * 0x100 + o1, o2);
  }

  /** Every text `ParseAddress` accepts is `str` of the address it yields. */
  lemma ParseAddressCanonical(s: string)
    requires ParseAddress(s).Some?
    ensures s == FormatAddress(ParseAddress(s).value)
  {
    var parts := Split(s, '.');
    var o := [ParseOctet(parts[0]).value, ParseOctet(parts[1]).value,
              ParseOctet(parts[2]).value, ParseOctet(parts[3]).value];
    OctetsOfFromOctets(o[0], o[1], o[2], o[3]);
    forall i | 0 <= i < 4
      ensures parts[i] == Decimal(o[i])
    {
      OctetCanonical(parts[i]);
    }
    assert parts == [Decimal(o[0]), Decimal(o[1]), Decimal(o[2]), Decimal(o[3])];
    JoinSplit(s, '.');
  }

  /** Distinct addresses have distinct text forms. */
  lemma FormatAddressInjective(a: Address, b: Address)
    requires FormatAddress(a) == FormatAddress(b)
    ensures a == b
  {
    AddressRoundTrip(a);
    AddressRoundTrip(b);
  }

  /** Only digits and dots appear in an address's text form. */
  lemma FormatAddressHasNo(a: Address, c: char)
    requires !IsDigit(c) && c != '.'
    ensures c !in FormatAddress(a)
  {
    var o := Octets(a);
    var parts := [Decimal(o[0]), Decimal(o[1]), Decimal(o[2]), Decimal(o[3])];
    forall i | 0 <= i < 4
      ensures c !in parts[i]
    {
      DecimalHasNo(o[i], c);
    }
    JoinHasNo(parts, ".", c);
  }

  /** The prefix length whose netmask is `m`, searching upwards from `p`. */
  function PrefixOfNetmask(m: nat, p: nat): (r: Option<nat>)
    requires p <= 33
    ensures r.Some? ==> p <= r.value <= 32 && Netmask(r.value) == m
    ensures r.None? ==> forall q :: p <= q <= 32 ==> Netmask(q) != m
    decreases 33 - p
  {
    if p > 32 then None
    else if Netmask(p) == m then Some(p)
    else PrefixOfNetmask(m, p + 1)
  }

  /** The prefix length whose netmask is `m`, if any. */
  function NetmaskLength(m: Address): (r: Option<nat>)
    ensures r.Some? ==> r.value <= 32 && Netmask(r.value) == m
    ensures r.None? ==> forall q :: 0 <= q <= 32 ==> Netmask(q) != m
  {
    PrefixOfNetmask(m, 0)
  }

  /** The hostmask of a prefix length: its host bits set, its network bits clear. */
  function Hostmask(p: nat): (h: Address)
    requires p <= 32
    ensures h == BlockSize(p) - 1
  {
    AddressSpace - 1 - Netmask(p)
  }

  /** A dotted suffix: the prefix length whose netmask it is, else whose hostmask it is. */
  function DottedPrefix(m: Address): (r: Option<nat>)
    ensures r.Some? ==> r.value <= 32 && (Netmask(r.value) == m || Hostmask(r.value) == m)
  {
    match NetmaskLength(m)
    case Some(p) => Some(p)
    case None => NetmaskLength(AddressSpace - 1 - m)
  }

  /**
   * The suffix after "/": a decimal prefix length of at most 32 (leading
   * zeros allowed), else a dotted netmask, else a dotted hostmask.
   */
  function ParsePrefix(s: string): (r: Option<nat>)
    ensures r.Some? ==> r.value <= 32
    ensures IsDecimal(s) && DigitsValue(s) <= 32 ==> r == Some(DigitsValue(s))
  {
    if IsDecimal(s) && DigitsValue(s) <= 32 then Some(DigitsValue(s))
    else
      match ParseAddress(s)
      case None => None
      case Some(m) =>
        DottedPrefix(m)
  }

  /**
   * `ip_network(text, strict=False)` for IPv4: at most one "/", a dotted
   * address, an optional suffix (a bare address is a /32), and host bits
   * cleared.
   */
  function ParseNetwork(s: string): (r: Option<Network>)
    ensures r.Some? ==> ValidNetwork(r.value)
  {
    var parts := Split(s, '/');
    if |parts| > 2 then None
    else
      match ParseAddress(parts[0])
      case None => None
      case Some(a) =>
        match (if |parts| == 2 then ParsePrefix(parts[1]) else Some(32))
        case None => None
        case Some(p) => Some(Network(MaskAddress(a, p), p))
  }

  /** A decimal prefix length and the matching dotted netmask name the same prefix. */
  lemma PrefixForms(p: nat)
    requires p <= 32
    ensures ParsePrefix(Decimal(p)) == Some(p)
    ensures ParsePrefix(FormatAddress(Netmask(p))) == Some(p)
  {
    DecimalPrefix(p);
    DottedNotDecimal(Netmask(p));
    AddressRoundTrip(Netmask(p));
    NetmaskPrefix(p);
  }

  /** The decimal text of a prefix length reads back as that length. */
  lemma DecimalPrefix(p: nat)
    requires p <= 32
    ensures ParsePrefix(Decimal(p)) == Some(p)
  {
  }

  /** An address text holds a dot, so it is never read as a decimal prefix length. */
  lemma DottedNotDecimal(a: Address)
    ensures !IsDecimal(FormatAddress(a))
  {
    var o := Octets(a);
    var s := FormatAddress(a);
    assert s == Decimal(o[0]) + "." + Join([Decimal(o[1]), Decimal(o[2]), Decimal(o[3])], ".");
    assert s[|Decimal(o[0])|] == '.';
  }

  /** A power of two above 1 is even. */
  lemma Pow2Even(n: nat)
    requires n >= 1
    ensures Pow2(n) % 2 == 0
  {
  }

  /** For 0 < p < 32 the hostmask is no netmask: it is odd, and the only odd netmask is all ones. */
  lemma HostmaskNotNetmask(p: nat, q: nat)
    requires 0 < p < 32 && q <= 32
    ensures Netmask(q) != Hostmask(p)
  {
    Pow2Even(32 - p);
    Pow2ThirtyTwo();
    if q < 32 {
      Pow2Even(32 - q);
    } else {
      Pow2Increasing(32 - p, 32);
    }
  }

  /** For 0 < p < 32 the dotted hostmask names the prefix length p. */
  lemma HostmaskForm(p: nat)
    requires 0 < p < 32
    ensures ParsePrefix(FormatAddress(Hostmask(p))) == Some(p)
  {
    DottedNotDecimal(Hostmask(p));
    AddressRoundTrip(Hostmask(p));
    HostmaskDotted(p);
  }

  lemma HostmaskDotted(p: nat)
    requires 0 < p < 32
    ensures DottedPrefix(Hostmask(p)) == Some(p)
  {
    var h := Hostmask(p);
    HostmaskNoPrefix(p);
    NetmaskPrefix(p);
    ComplementSearch(h, Netmask(p));
  }

  /** Where no netmask matches `h`, the dotted reading searches its complement. */
  lemma ComplementSearch(h: Address, m: Address)
    requires NetmaskLength(h).None? && m == AddressSpace - 1 - h
    ensures DottedPrefix(h) == NetmaskLength(m)
  {
  }

  lemma HostmaskNoPrefix(p: nat)
    requires 0 < p < 32
    ensures NetmaskLength(Hostmask(p)) == None
  {
    var first := NetmaskLength(Hostmask(p));
    if first.Some? {
      HostmaskNotNetmask(p, first.value);
    }
  }

  /** The search for a netmask's prefix length finds exactly that length. */
  lemma NetmaskPrefix(p: nat)
    requires p <= 32
    ensures NetmaskLength(Netmask(p)) == Some(p)
    ensures DottedPrefix(Netmask(p)) == Some(p)
  {
    var r := NetmaskLength(Netmask(p));
    if r.value != p {
      NetmaskInjective(r.value, p);
    }
  }

  /**
   * What `ParsePrefix` accepts: digits read as their value (leading zeros
   * allowed), the dotted netmask of the result, or its dotted hostmask.
   */
  lemma ParsePrefixMeaning(s: string)
    requires ParsePrefix(s).Some?
    ensures var p := ParsePrefix(s).value;
      (IsDecimal(s) && DigitsValue(s) == p) || s == FormatAddress(Netmask(p)) || s == FormatAddress(Hostmask(p))
  {
    if !(IsDecimal(s) && DigitsValue(s) <= 32) {
      ParseAddressCanonical(s);
    }
  }

  /** `str(network)`: the address, "/", the decimal prefix length. */
  function FormatNetwork(n: Network): string
  {
    FormatAddress(n.address) + "/" + Decimal(n.prefix)
  }

  /** A dotted address, "/", and a suffix without "/" parse as that address masked by the suffix. */
  lemma ParseAddressSlash(a: Address, suffix: string)
    requires '/' !in suffix
    ensures ParseNetwork(FormatAddress(a) + "/" + suffix) ==
      (var r := ParsePrefix(suffix); if r.None? then None else Some(Network(MaskAddress(a, r.value), r.value)))
  {
    var parts := [FormatAddress(a), suffix];
    FormatAddressHasNo(a, '/');
    SplitJoin(parts, '/');
    assert Join(parts, "/") == FormatAddress(a) + "/" + suffix;
    AddressRoundTrip(a);
  }

  /**
   * What `ParseNetwork` accepts, and what it yields: either a bare address
   * text, which is that address as a /32, or an address text, "/", and a
   * suffix without "/" that `ParsePrefix` accepts, which is the block of
   * that prefix length holding the address.
   */
  lemma ParseNetworkMeaning(s: string)
    requires ParseNetwork(s).Some?
    ensures var n := ParseNetwork(s).value;
      (exists a: Address :: s == FormatAddress(a) && n == Network(a, 32)) ||
      (exists a: Address, t: string :: s == FormatAddress(a) + "/" + t && '/' !in t &&
        ParsePrefix(t) == Some(n.prefix) && n == Network(MaskAddress(a, n.prefix), n.prefix))
  {
    var parts := Split(s, '/');
    var a := ParseAddress(parts[0]).value;
    ParseAddressCanonical(parts[0]);
    JoinSplit(s, '/');
    if |parts| == 1 {
      assert BlockSize(32) == 1;
      assert MaskAddress(a, 32) == a;
      assert s == FormatAddress(a);
    } else {
      assert s == FormatAddress(a) + "/" + parts[1];
    }
  }

  /** A bare address text is accepted as the /32 network of that address. */
  lemma BareAddressNetwork(a: Address)
    ensures ParseNetwork(FormatAddress(a)) == Some(Network(a, 32))
  {
    FormatAddressHasNo(a, '/');
    SplitWithout(FormatAddress(a), '/');
    AddressRoundTrip(a);
    assert BlockSize(32) == 1;
  }

  /** Parsing a formatted network gives the network back. */
  lemma NetworkRoundTrip(n: Network)
    requires ValidNetwork(n)
    ensures ParseNetwork(FormatNetwork(n)) == Some(n)
  {
    DecimalHasNo(n.prefix, '/');
    ParseAddressSlash(n.address, Decimal(n.prefix));
    DecimalPrefix(n.prefix);
  }

  /**
   * `get_local_subnet(prefix_length)`: the text of the network holding the
   * local address, `None` where `ip_network` raises.
   */
  function LocalSubnet(localIp: Address, prefixLength: int): Option<string>
  {
    var text := FormatAddress(localIp) + "/" + (if prefixLength < 0 then "-" + Decimal(-prefixLength) else Decimal(prefixLength));
    match ParseNetwork(text)
    case None => None
    case Some(n) => Some(FormatNetwork(n))
  }

  lemma SplitWithout(s: string, c: char)
    requires c !in s
    ensures Split(s, c) == [s]
  {
    SplitJoin([s], c);
  }

  /** A prefix length from 0 to 32 names the block holding the local address; any other raises. */
  lemma LocalSubnetSpec(localIp: Address, prefixLength: int)
    ensures 0 <= prefixLength <= 32 ==>
      LocalSubnet(localIp, prefixLength) == Some(FormatNetwork(Network(MaskAddress(localIp, prefixLength), prefixLength)))
    ensures !(0 <= prefixLength <= 32) ==> LocalSubnet(localIp, prefixLength) == None
  {
    var suffix := if prefixLength < 0 then "-" + Decimal(-prefixLength) else Decimal(prefixLength);
    assert '/' !in suffix by {
      DecimalHasNo(if prefixLength < 0 then -prefixLength else prefixLength, '/');
    }
    ParseAddressSlash(localIp, suffix);
    if 0 <= prefixLength <= 32 {
      DecimalPrefix(prefixLength);
    } else {
      assert '.' !in suffix by {
        DecimalHasNo(if prefixLength < 0 then -prefixLength else prefixLength, '.');
      }
      SplitWithout(suffix, '.');
      if prefixLength < 0 {
        assert !IsDigit(suffix[0]);
      }
      assert ParsePrefix(suffix) == None;
    }
  }

  /** `10.0.0.0/30` has the two hosts `10.0.0.1` and `10.0.0.2`. */
  lemma SlashThirtyHosts()
    ensures Hosts(Network(0x0A00_0000, 30)) == [0x0A00_0001, 0x0A00_0002]
    ensures FormatAddress(0x0A00_0001) == "10.0.0.1" && FormatAddress(0x0A00_0002) == "10.0.0.2"
  {
    assert BlockSize(30) == 4 by {
      assert Pow2(2) == 4;
    }
    var hs := Hosts(Network(0x0A00_0000, 30));
    assert |hs| == 2 && hs[0] == 0x0A00_0001 && hs[1] == 0x0A00_0002;
    assert Octets(0x0A00_0001) == [10, 0, 0, 1];
    assert Octets(0x0A00_0002) == [10, 0, 0, 2];
    assert Decimal(10) == "10" by {
      assert Decimal(1) == "1" && Decimal(0) == "0";
    }
    assert Decimal(1) == "1" && Decimal(2) == "2" && Decimal(0) == "0";
    JoinFour("10", "0", "0", "1", ".");
    JoinFour("10", "0", "0", "2", ".");
  }
}
