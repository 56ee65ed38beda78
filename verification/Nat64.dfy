/** NAT64 address arithmetic: the pool check (capabilities/nat64.go) and the
    translator's own addresses (capabilities/nat64_base.go). */
module Nat64 {
  import opened Options
  import opened GoStrings

  type Byte = x: int | 0 <= x < 256

  /** What net.ParseCIDR yields: the address in sixteen-byte form, whether the text
      was an IPv6 address, and the prefix length. */
  datatype Parsed = Parsed(ip: seq<Byte>, v6: bool, ones: nat)

  /** Results of a successful parse; a dotted quad is kept as an IPv4-mapped address. */
  predicate ParseResult(p: Parsed) {
    && |p.ip| == 16
    && p.ones <= (if p.v6 then 128 else 32)
    && (!p.v6 ==> Mapped(p.ip))
  }

  predicate Mapped(ip: seq<Byte>)
    requires |ip| == 16
  {
    (forall i | 0 <= i < 10 :: ip[i] == 0) && ip[10] == 255 && ip[11] == 255
  }

  /** net.IPNet: the masked address, four or sixteen bytes, and the prefix length. */
  datatype IPNet = IPNet(ip: seq<Byte>, ones: nat)

  /** net.IP.To4: None is nil. */
  function To4(ip: seq<Byte>): (r: Option<seq<Byte>>)
    ensures r.Some? ==> |r.value| == 4
  {
    if |ip| == 4 then Some(ip)
    else if |ip| == 16 && Mapped(ip) then Some(ip[12..])
    else None
  }

  /** What the k highest bits of a byte leave free: 256, 128, ..., 1. */
  function Free(k: nat): (f: nat)
    requires k <= 8
    ensures f > 0
  {
    if k == 0 then 256 else if k == 1 then 128 else if k == 2 then 64 else if k == 3 then 32
    else if k == 4 then 16 else if k == 5 then 8 else if k == 6 then 4 else if k == 7 then 2 else 1
  }

  /** The byte with all but its k highest bits cleared. */
  function MaskByte(b: Byte, k: nat): (m: Byte)
    requires k <= 8
    ensures b - Free(k) < m <= b
  {
    b - if k == 0 then b else if k == 1 then b % 128 else if k == 2 then b % 64 else if k == 3 then b % 32
        else if k == 4 then b % 16 else if k == 5 then b % 8 else if k == 6 then b % 4 else if k == 7 then b % 2 else 0
  }

  /** How many bits a prefix of the given length keeps of byte i. */
  function Kept(ones: nat, i: nat): (k: nat)
    ensures k <= 8
  {
    if ones <= 8 * i then 0 else if ones >= 8 * i + 8 then 8 else ones - 8 * i
  }

  function Mask(ip: seq<Byte>, ones: nat): (m: seq<Byte>)
    ensures |m| == |ip|
    ensures forall i | 0 <= i < |ip| :: m[i] == MaskByte(ip[i], Kept(ones, i))
  {
    seq(|ip|, i requires 0 <= i < |ip| => MaskByte(ip[i], Kept(ones, i)))
  }

  /** The highest address of a prefix, byte by byte. */
  function Broadcast(n: IPNet): (b: seq<int>)
    ensures |b| == |n.ip|
    ensures forall i | 0 <= i < |n.ip| :: b[i] == n.ip[i] + Free(Kept(n.ones, i)) - 1
  {
    seq(|n.ip|, i requires 0 <= i < |n.ip| => n.ip[i] + Free(Kept(n.ones, i)) - 1)
  }

  /** The network ParseCIDR returns with the address. */
  function Network(p: Parsed): IPNet
    requires ParseResult(p)
  {
    IPNet(Mask(if p.v6 then p.ip else p.ip[12..], p.ones), p.ones)
  }

  /** nat64Pool: None stands for a text ParseCIDR rejects. */
  function Nat64Pool(parsed: Option<Parsed>): Result<IPNet>
    requires parsed.Some? ==> ParseResult(parsed.value)
  {
    if parsed.None? || To4(parsed.value.ip).None? then Err("pool must be an IPv4 prefix")
    else if parsed.value.ones > 30 then Err("pool must be a /30 or larger")
    else Ok(Network(parsed.value))
  }

  /** A text naming an address in a pool. */
  predicate Contains(n: IPNet, ip: seq<Byte>) {
    |ip| == |n.ip| && Mask(ip, n.ones) == n.ip
  }

  function Dotted(ip: seq<Byte>): string
    requires |ip| == 4
  {
    Itoa(ip[0]) + "." + Itoa(ip[1]) + "." + Itoa(ip[2]) + "." + Itoa(ip[3])
  }

  /** %02x. */
  function HexByte(b: Byte): (s: string)
    ensures |s| == 2
  {
    [DigitChar(b / 16), DigitChar(b % 16)]
  }

  function UlaOf(ip: seq<Byte>): string
    requires |ip| == 4
  {
    "fd64:" + HexByte(ip[0]) + HexByte(ip[1]) + ":" + HexByte(ip[2]) + HexByte(ip[3]) + "::1"
  }

  /** ++ on a byte, which wraps. */
  function Increment(b: Byte): Byte { if b == 255 then 0 else b + 1 }

  /** The address after the pool's, as the byte increment computes it. */
  function FirstOf(ip: seq<Byte>): (first: seq<Byte>)
    requires |ip| == 4
    ensures |first| == 4
  {
    [ip[0], ip[1], ip[2], Increment(ip[3])]
  }

  /** taygaAddresses on what its text parses to, None for a text ParseCIDR rejects.  Err
      is the panic of indexing the copy of a nil address. */
  method TaygaAddresses(parsed: Option<IPNet>) returns (r: Result<(string, string)>)
    ensures parsed.None? ==> r == Ok(("", ""))
    ensures parsed.Some? ==> (r.Ok? <==> To4(parsed.value.ip).Some?)
    ensures parsed.Some? && r.Ok? ==>
      var ip := To4(parsed.value.ip).value; r.value == (Dotted(FirstOf(ip)), UlaOf(ip))
  {
    if parsed.None? {
      return Ok(("", ""));
    }
    var pool := parsed.value;
    var ip := match To4(pool.ip) case Some(b) => b case None => [];
    var first := new Byte[|ip|](i requires 0 <= i < |ip| => ip[i]);
    if first.Length <= 3 {
      return Err("index out of range");
    }
    first[3] := Increment(first[3]);
    assert first[..] == FirstOf(ip);
    r := Ok((Dotted(first[..]), UlaOf(ip)));
  }

  // The multiples a byte is cut down to, one power of two at a time.

  lemma Multiple128(b: int)
    requires 0 <= b < 256
    ensures var m := b - b % 128; m - m % 128 == m && 128 <= m + 128 <= 256 && (m + 1) - (m + 1) % 128 == m
  {
  }

  lemma Multiple64(b: int)
    requires 0 <= b < 256
    ensures var m := b - b % 64; m - m % 64 == m && 64 <= m + 64 <= 256 && (m + 1) - (m + 1) % 64 == m
  {
  }

  lemma Multiple32(b: int)
    requires 0 <= b < 256
    ensures var m := b - b % 32; m - m % 32 == m && 32 <= m + 32 <= 256 && (m + 1) - (m + 1) % 32 == m
  {
  }

  lemma Multiple16(b: int)
    requires 0 <= b < 256
    ensures var m := b - b % 16; m - m % 16 == m && 16 <= m + 16 <= 256 && (m + 1) - (m + 1) % 16 == m
  {
  }

  lemma Multiple8(b: int)
    requires 0 <= b < 256
    ensures var m := b - b % 8; m - m % 8 == m && 8 <= m + 8 <= 256 && (m + 1) - (m + 1) % 8 == m
  {
  }

  lemma Multiple4(b: int)
    requires 0 <= b < 256
    ensures var m := b - b % 4; m - m % 4 == m && 4 <= m + 4 <= 256 && (m + 1) - (m + 1) % 4 == m
  {
  }

  lemma Multiple2(b: int)
    requires 0 <= b < 256
    ensures var m := b - b % 2; m - m % 2 == m && 2 <= m + 2 <= 256
  {
  }

  lemma MaskTwice(b: Byte, k: nat)
    requires k <= 8
    ensures MaskByte(MaskByte(b, k), k) == MaskByte(b, k)
  {
    match k {
      case 0 =>
      case 1 => Multiple128(b);
      case 2 => Multiple64(b);
      case 3 => Multiple32(b);
      case 4 => Multiple16(b);
      case 5 => Multiple8(b);
      case 6 => Multiple4(b);
      case 7 => Multiple2(b);
      case 8 =>
    }
  }

  /** With at most six bits kept there is room for the next address in the byte. */
  lemma NextIsInside(b: Byte, k: nat)
    requires k <= 6
    ensures MaskByte(b, k) < 253
    ensures MaskByte(MaskByte(b, k) + 1, k) == MaskByte(b, k)
    ensures Free(k) >= 4 && MaskByte(b, k) + Free(k) <= 256
  {
    match k {
      case 0 =>
      case 1 => Multiple128(b);
      case 2 => Multiple64(b);
      case 3 => Multiple32(b);
      case 4 => Multiple16(b);
      case 5 => Multiple8(b);
      case 6 => Multiple4(b);
    }
  }

  /** For every dotted-quad pool accepted, the increment does not wrap, and the
      address it yields is in the pool and neither its network nor its broadcast. */
  lemma TranslatorAddressUsable(p: Parsed)
    requires ParseResult(p) && !p.v6 && Nat64Pool(Some(p)).Ok?
    ensures var n := Nat64Pool(Some(p)).value; var first := FirstOf(n.ip);
      && |n.ip| == 4 && To4(n.ip) == Some(n.ip)
      && first == n.ip[3 := n.ip[3] + 1]
      && Contains(n, first) && Contains(n, p.ip[12..])
      && first != n.ip
      && first != Broadcast(n)
  {
    var n := Network(p);
    var ip := p.ip[12..];
    NextIsInside(ip[3], Kept(p.ones, 3));
    var first := FirstOf(n.ip);
    forall i | 0 <= i < 4 ensures MaskByte(first[i], Kept(p.ones, i)) == n.ip[i] {
      MaskTwice(ip[i], Kept(p.ones, i));
    }
    assert Mask(first, n.ones) == n.ip;
    assert Broadcast(n)[3] != first[3];
  }

  /** Exactly the prefixes accepted: of at most 30 bits, of an address that is IPv4,
      written as a dotted quad or mapped. */
  lemma PoolAcceptedExactly(parsed: Option<Parsed>)
    requires parsed.Some? ==> ParseResult(parsed.value)
    ensures Nat64Pool(parsed).Ok? <==>
      && parsed.Some? && parsed.value.ones <= 30
      && (forall i | 0 <= i < 10 :: parsed.value.ip[i] == 0) && parsed.value.ip[10] == parsed.value.ip[11] == 255
  {
    if parsed.Some? {
      assert parsed.value.ip[10] == parsed.value.ip[11] == 255 <==> parsed.value.ip[10] == 255 && parsed.value.ip[11] == 255;
    }
  }

  // ------------------------------------------------------------ addresses as numbers

  function Number(ip: seq<Byte>): nat
    requires |ip| == 4
  {
    (((ip[0] as int) * 256 + ip[1]) * 256 + ip[2]) * 256 + ip[3]
  }

  function Pow2(n: nat): (p: nat)
    ensures p > 0
  {
    if n == 0 then 1 else 2 * Pow2(n - 1)
  }

  lemma Pow2Eight(n: nat)
    ensures Pow2(n + 8) == 256 * Pow2(n)
  {
    assert Pow2(n + 2) == 4 * Pow2(n);
    assert Pow2(n + 4) == 4 * Pow2(n + 2);
    assert Pow2(n + 6) == 4 * Pow2(n + 4);
    assert Pow2(n + 8) == 4 * Pow2(n + 6);
  }

  lemma FreeIsPower(k: nat)
    requires k <= 8
    ensures Free(k) == Pow2(8 - k)
  {
    assert Pow2(2) == 4 && Pow2(4) == 4 * Pow2(2) && Pow2(6) == 4 * Pow2(4) && Pow2(8) == 4 * Pow2(6);
  }

  /** The addresses a byte counts, from its place. */
  function Unit(j: nat): nat { if j == 0 then 0x100_0000 else if j == 1 then 0x1_0000 else if j == 2 then 0x100 else 1 }

  /** How many addresses a prefix has, from the byte its end falls in. */
  lemma AddressCount(ones: nat, j: nat)
    requires j < 4 && 8 * j <= ones < 8 * j + 8
    ensures Pow2(32 - ones) == Free(ones - 8 * j) * Unit(j)
  {
    var k := ones - 8 * j;
    FreeIsPower(k);
    Pow2Eight(8 - k);
    Pow2Eight(16 - k);
    Pow2Eight(24 - k);
  }

  lemma ByteMultiple(b: Byte, k: nat, prefix: nat) returns (q: nat)
    requires k <= 7
    ensures prefix * 256 + MaskByte(b, k) == q * Free(k)
  {
    if k == 0 { q := prefix; }
    else if k == 1 { q := prefix * 2 + b / 128; }
    else if k == 2 { q := prefix * 4 + b / 64; }
    else if k == 3 { q := prefix * 8 + b / 32; }
    else if k == 4 { q := prefix * 16 + b / 16; }
    else if k == 5 { q := prefix * 32 + b / 8; }
    else if k == 6 { q := prefix * 64 + b / 4; }
    else { q := prefix * 128 + b / 2; }
  }

  function Times(q: nat, size: nat): nat { q * size }

  ghost predicate IsMultiple(x: nat, size: nat) { exists q: nat :: Times(q, size) == x }

  /** A number cut down at byte j: what is before it, the byte and what is after it. */
  lemma CutAtByte(prefix: nat, b: Byte, k: nat, low: nat, j: nat)
    requires j < 4 && k <= 7 && low < Unit(j)
    ensures var size, net, x := Free(k) * Unit(j), (prefix * 256 + MaskByte(b, k)) * Unit(j), (prefix * 256 + b) * Unit(j) + low;
      IsMultiple(net, size) && net <= x < net + size
  {
    var q := ByteMultiple(b, k, prefix);
    Regroup(q, Free(k), Unit(j));
    assert Times(q, Free(k) * Unit(j)) == (prefix * 256 + MaskByte(b, k)) * Unit(j);
    Below(prefix * 256 + b, prefix * 256 + MaskByte(b, k), Free(k), low, j);
  }

  lemma Regroup(q: nat, f: nat, u: nat)
    ensures Times(q, f * u) == (q * f) * u
  {
  }

  lemma Below(x: nat, m: nat, f: nat, low: nat, j: nat)
    requires j < 4 && m <= x < m + f && low < Unit(j)
    ensures m * Unit(j) <= x * Unit(j) + low < m * Unit(j) + f * Unit(j)
  {
  }

  /** The network address of a dotted-quad pool is the multiple of the pool's size that
      the address lies in. */
  lemma NetworkNumber(p: Parsed)
    requires ParseResult(p) && !p.v6 && p.ones < 32
    ensures |Network(p).ip| == 4
    ensures IsMultiple(Number(Network(p).ip), Pow2(32 - p.ones))
    ensures Number(Network(p).ip) <= Number(p.ip[12..]) < Number(Network(p).ip) + Pow2(32 - p.ones)
  {
    var ip, j := p.ip[12..], p.ones / 8;
    AddressCount(p.ones, j);
    MaskedBytes(ip, p.ones, j);
    MaskedNumber(ip, p.ones, j);
  }

  lemma MaskedNumber(ip: seq<Byte>, ones: nat, j: nat)
    requires |ip| == 4 && j < 4 && 8 * j <= ones < 8 * j + 8
    ensures var size := Free(ones - 8 * j) * Unit(j);
      IsMultiple(Number(Mask(ip, ones)), size) && Number(Mask(ip, ones)) <= Number(ip) < Number(Mask(ip, ones)) + size
  {
    var k := ones - 8 * j;
    var a, b, c, d: int := ip[0], ip[1], ip[2], ip[3];
    MaskedBytes(ip, ones, j);
    if j == 0 {
      CutAtByte(0, ip[0], k, (b * 256 + c) * 256 + d, 0);
    } else if j == 1 {
      CutAtByte(a, ip[1], k, c * 256 + d, 1);
    } else if j == 2 {
      CutAtByte(a * 256 + b, ip[2], k, d, 2);
    } else {
      CutAtByte((a * 256 + b) * 256 + c, ip[3], k, 0, 3);
    }
  }

  lemma MaskedBytes(ip: seq<Byte>, ones: nat, j: nat)
    requires |ip| == 4 && j < 4 && 8 * j <= ones < 8 * j + 8
    ensures forall i | 0 <= i < 4 ::
      Mask(ip, ones)[i] == if i < j then ip[i] else if i == j then MaskByte(ip[j], ones - 8 * j) else 0
  {
  }

  /** For every dotted-quad pool accepted, the translator's address is the network
      address plus one, above it and below the last address of the pool. */
  lemma TranslatorNumber(p: Parsed)
    requires ParseResult(p) && !p.v6 && Nat64Pool(Some(p)).Ok?
    ensures var n := Nat64Pool(Some(p)).value;
      && |n.ip| == 4
      && Number(FirstOf(n.ip)) == Number(n.ip) + 1
      && Number(n.ip) < Number(FirstOf(n.ip)) < Number(n.ip) + Pow2(32 - p.ones) - 1
      && Number(n.ip) <= Number(p.ip[12..]) < Number(n.ip) + Pow2(32 - p.ones)
      && IsMultiple(Number(n.ip), Pow2(32 - p.ones))
  {
    TranslatorAddressUsable(p);
    NetworkNumber(p);
    Pow2AtLeast(32 - p.ones);
  }

  lemma {:induction false} Pow2AtLeast(n: nat)
    requires n >= 2
    ensures Pow2(n) >= 4
  {
    if n > 2 {
      Pow2AtLeast(n - 1);
    } else {
      assert Pow2(2) == 2 * Pow2(1);
    }
  }

  // ------------------------------------------------------------ address texts

  /** The text of an IPv4 address is its four bytes in order. */
  lemma DottedReads(ip: seq<Byte>)
    requires |ip| == 4
    ensures var pieces := Split(Dotted(ip), '.');
      |pieces| == 4 && forall i | 0 <= i < 4 :: Numeral(pieces[i]) && Value(pieces[i]) == ip[i]
  {
    var pieces := [Itoa(ip[0]), Itoa(ip[1]), Itoa(ip[2]), Itoa(ip[3])];
    JoinFour(pieces[0], pieces[1], pieces[2], pieces[3]);
    forall i | 0 <= i < 4 ensures '.' !in pieces[i] && Numeral(pieces[i]) && Value(pieces[i]) == ip[i] {
      NoSeparators(pieces[i]);
      ItoaValue(ip[i]);
    }
    DottedIsJoin(pieces[0], pieces[1], pieces[2], pieces[3]);
    SplitJoin(pieces, '.');
  }

  lemma DottedIsJoin(a: string, b: string, c: string, d: string)
    ensures a + "." + b + "." + c + "." + d == a + "." + (b + "." + (c + "." + d))
  {
  }

  lemma HexPair(a: Byte, b: Byte)
    ensures var g := HexByte(a) + HexByte(b);
      ':' !in g && (forall c | c in g :: IsHexDigit(c)) && HexValue(g) == (a as int) * 256 + b
  {
    var x, y, z, w := DigitChar(a / 16), DigitChar(a % 16), DigitChar(b / 16), DigitChar(b % 16);
    var g := [x, y, z, w];
    assert HexByte(a) + HexByte(b) == g;
    assert g[..3] == [x, y, z] && g[..3][..2] == [x, y] && g[..2][..1] == [x] && g[..1][..0] == [];
    assert HexValue([x]) == a / 16;
    assert HexValue([x, y]) == a;
    assert [x, y, z][..2] == [x, y] && [x, y][..1] == [x];
    assert HexValue([x, y, z]) == (a as int) * 16 + b / 16;
  }

  /** The text of the translator's IPv6 address: the unique local prefix fd64, the four
      bytes two to a group, zeros and a one. */
  lemma UlaReads(ip: seq<Byte>)
    requires |ip| == 4
    ensures var groups := Split(UlaOf(ip), ':');
      && |groups| == 5 && groups[0] == "fd64" && groups[3] == "" && groups[4] == "1"
      && (forall c | c in groups[1] :: IsHexDigit(c)) && HexValue(groups[1]) == (ip[0] as int) * 256 + ip[1]
      && (forall c | c in groups[2] :: IsHexDigit(c)) && HexValue(groups[2]) == (ip[2] as int) * 256 + ip[3]
  {
    var g, h := HexByte(ip[0]) + HexByte(ip[1]), HexByte(ip[2]) + HexByte(ip[3]);
    HexPair(ip[0], ip[1]);
    HexPair(ip[2], ip[3]);
    UlaParts(HexByte(ip[0]), HexByte(ip[1]), HexByte(ip[2]), HexByte(ip[3]));
    SplitPiece("fd64", g + ":" + (h + ":" + ("" + ":" + "1")), ':');
    SplitPiece(g, h + ":" + ("" + ":" + "1"), ':');
    SplitPiece(h, "" + ":" + "1", ':');
    SplitPiece("", "1", ':');
    SplitPiece("1", "", ':');
  }

  lemma UlaParts(a: string, b: string, c: string, d: string)
    ensures "fd64:" + a + b + ":" + c + d + "::1"
         == "fd64" + ":" + (a + b + ":" + (c + d + ":" + ("" + ":" + "1")))
  {
    assert "fd64:" == "fd64" + ":" && "::1" == ":" + ("" + ":" + "1");
  }

  /** An IPv4-mapped IPv6 text passes the pool check, yet its network has no
      four-byte form, so among the accepted pools the translator's addresses can be
      computed exactly for the dotted quads. */
  lemma AddressesExactlyForDottedQuads(p: Parsed)
    requires ParseResult(p) && Nat64Pool(Some(p)).Ok?
    ensures To4(Nat64Pool(Some(p)).value.ip).Some? <==> !p.v6
  {
    if p.v6 {
      assert Network(p).ip[10] == MaskByte(p.ip[10], 0) == 0;
    }
  }

  /** ::ffff:10.0.0.0/24 is such a text. */
  lemma MappedPoolAccepted()
    ensures var p := Parsed([0, 0, 0, 0, 0, 0, 0, 0, 0, 0, 255, 255, 10, 0, 0, 0], true, 24);
      ParseResult(p) && Nat64Pool(Some(p)).Ok? && To4(Nat64Pool(Some(p)).value.ip).None?
  {
    var p := Parsed([0, 0, 0, 0, 0, 0, 0, 0, 0, 0, 255, 255, 10, 0, 0, 0], true, 24);
    assert Mapped(p.ip);
    AddressesExactlyForDottedQuads(p);
  }

  lemma HexByteInjective(b: Byte, c: Byte)
    requires HexByte(b) == HexByte(c)
    ensures b == c
  {
    assert DigitValue(HexByte(b)[0]) == b / 16 && DigitValue(HexByte(b)[1]) == b % 16;
    assert DigitValue(HexByte(c)[0]) == c / 16 && DigitValue(HexByte(c)[1]) == c % 16;
  }

  /** The translator's IPv6 address determines the pool's network address, and
      nothing else of the pool. */
  lemma UlaExactlyNetworkAddress(ip: seq<Byte>, other: seq<Byte>)
    requires |ip| == 4 && |other| == 4
    ensures UlaOf(ip) == UlaOf(other) <==> ip == other
  {
    var s, t := UlaOf(ip), UlaOf(other);
    if s == t {
      assert s[5..7] == HexByte(ip[0]) && s[7..9] == HexByte(ip[1]) && s[10..12] == HexByte(ip[2]) && s[12..14] == HexByte(ip[3]);
      assert t[5..7] == HexByte(other[0]) && t[7..9] == HexByte(other[1]) && t[10..12] == HexByte(other[2]) && t[12..14] == HexByte(other[3]);
      HexByteInjective(ip[0], other[0]);
      HexByteInjective(ip[1], other[1]);
      HexByteInjective(ip[2], other[2]);
      HexByteInjective(ip[3], other[3]);
    }
  }

  /** Routers with pools that share no address get different IPv6 addresses. */
  lemma DisjointPoolsDiffer(p: Parsed, q: Parsed)
    requires ParseResult(p) && ParseResult(q) && !p.v6 && !q.v6
    requires Nat64Pool(Some(p)).Ok? && Nat64Pool(Some(q)).Ok?
    requires forall ip: seq<Byte> :: !(Contains(Network(p), ip) && Contains(Network(q), ip))
    ensures UlaOf(Network(p).ip) != UlaOf(Network(q).ip)
  {
    UlaExactlyNetworkAddress(Network(p).ip, Network(q).ip);
    NetworkContainsItself(p);
    NetworkContainsItself(q);
  }

  lemma NetworkContainsItself(p: Parsed)
    requires ParseResult(p) && !p.v6
    ensures Contains(Network(p), Network(p).ip)
  {
    var ip := p.ip[12..];
    forall i | 0 <= i < 4 ensures MaskByte(Network(p).ip[i], Kept(p.ones, i)) == Network(p).ip[i] {
      MaskTwice(ip[i], Kept(p.ones, i));
    }
    assert Mask(Network(p).ip, p.ones) == Network(p).ip;
  }
}
