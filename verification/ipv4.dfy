/** Dotted-decimal addresses and prefixes, and the conversion of a resource's
    address into the network and netmask a route carries (SplitCIDR in
    internal/services/resource.go). */
module Ipv4 {
  import opened Prelude
  import opened Text
  import opened Numerals

  type Octet = n: nat | n < 256

  datatype Quad = Quad(a: Octet, b: Octet, c: Octet, d: Octet)

  /** net.IP.String. */
  function Format(q: Quad): string {
    Join([Digits(q.a), Digits(q.b), Digits(q.c), Digits(q.d)], '.')
  }

  /** One field of a dotted-decimal address: no sign, no leading zero, at most 255. */
  predicate IsOctet(f: string) {
    f != "" && AllDigits(f) && (|f| > 1 ==> f[0] != '0') && ValueOf(f) < 256
  }

  /** net.ParseIP on text without a colon. */
  function ParseAddr(s: string): Option<Quad> {
    var f := Split(s, '.');
    if |f| == 4 && IsOctet(f[0]) && IsOctet(f[1]) && IsOctet(f[2]) && IsOctet(f[3])
    then Some(Quad(ValueOf(f[0]), ValueOf(f[1]), ValueOf(f[2]), ValueOf(f[3])))
    else None
  }

  lemma DigitsHoldNo(n: nat, c: char)
    requires !IsDigit(c)
    ensures c !in Digits(n)
  {
  }

  lemma DigitsIsOctet(n: Octet)
    ensures IsOctet(Digits(n)) && ValueOf(Digits(n)) == n
  {
  }

  /** An address is read from exactly one text, the one it is printed as. */
  lemma ParseFormat(q: Quad)
    ensures ParseAddr(Format(q)) == Some(q)
  {
    var f := [Digits(q.a), Digits(q.b), Digits(q.c), Digits(q.d)];
    DigitsHoldNo(q.a, '.'); DigitsHoldNo(q.b, '.'); DigitsHoldNo(q.c, '.'); DigitsHoldNo(q.d, '.');
    SplitJoin(f, '.');
    DigitsIsOctet(q.a); DigitsIsOctet(q.b); DigitsIsOctet(q.c); DigitsIsOctet(q.d);
  }

  lemma FormatParse(s: string)
    requires ParseAddr(s).Some?
    ensures Format(ParseAddr(s).value) == s
  {
    var f := Split(s, '.');
    JoinSplit(s, '.');
    DigitsOfValue(f[0]); DigitsOfValue(f[1]); DigitsOfValue(f[2]); DigitsOfValue(f[3]);
    assert f == [f[0], f[1], f[2], f[3]];
  }

  // ---- masks ----

  function Pow2(k: nat): (p: nat)
    ensures p > 0
  {
    if k == 0 then 1 else 2 * Pow2(k - 1)
  }

  /** How many leading ones a prefix of n bits puts in octet i. */
  function Ones(n: nat, i: nat): (k: nat)
    ensures k <= 8
  {
    if 8 * (i + 1) <= n then 8 else if n <= 8 * i then 0 else n - 8 * i
  }

  function MaskOctet(k: nat): Octet
    requires k <= 8
  {
    Pow2Table();
    256 - Pow2(8 - k)
  }

  lemma Pow2Table()
    ensures Pow2(0) == 1 && Pow2(1) == 2 && Pow2(2) == 4 && Pow2(3) == 8 && Pow2(4) == 16
    ensures Pow2(5) == 32 && Pow2(6) == 64 && Pow2(7) == 128 && Pow2(8) == 256
  {
  }

  /** net.CIDRMask(n, 32). */
  function Mask(n: nat): Quad
    requires n <= 32
  {
    Quad(MaskOctet(Ones(n, 0)), MaskOctet(Ones(n, 1)), MaskOctet(Ones(n, 2)), MaskOctet(Ones(n, 3)))
  }

  /** The bitwise and of two numbers. */
  function And(x: nat, y: nat): (z: nat)
    ensures z <= x
    decreases x
  {
    if x == 0 || y == 0 then 0
    else 2 * And(x / 2, y / 2) + (if x % 2 == 1 && y % 2 == 1 then 1 else 0)
  }

  /** net.IP.Mask. */
  function Masked(q: Quad, m: Quad): Quad {
    Quad(And(q.a, m.a), And(q.b, m.b), And(q.c, m.c), And(q.d, m.d))
  }

  lemma {:induction false} AndAll(x: nat, w: nat)
    requires x < Pow2(w)
    ensures And(x, Pow2(w) - 1) == x
  {
    if x > 0 { AndAll(x / 2, w - 1); }
  }

  lemma ModDouble(x: nat, m: nat)
    requires m > 0
    ensures x % (2 * m) == 2 * ((x / 2) % m) + x % 2
  {
    var h := x / 2;
    var q, r := h / m, h % m;
    assert h == q * m + r;
    assert x == q * (2 * m) + (2 * r + x % 2) by { assert x == 2 * h + x % 2; assert q * (2 * m) == 2 * (q * m); }
    DivModUnique(x, 2 * m, q, 2 * r + x % 2);
  }

  lemma StepUp(a: int, b: int, m: nat)
    requires a < b
    ensures a * m + m <= b * m
  {
    assert b * m - (a + 1) * m == (b - a - 1) * m;
    assert 0 <= (b - a - 1) * m;
  }

  lemma DivModUnique(x: int, m: int, q: int, r: int)
    requires m > 0 && 0 <= r < m && x == q * m + r
    ensures x / m == q && x % m == r
  {
    var q' := x / m;
    assert x == q' * m + x % m;
    if q < q' { StepUp(q, q', m); }
    if q' < q { StepUp(q', q, m); }
  }

  /** And with a run of high ones clears the low bits. */
  lemma {:induction false} AndHigh(x: nat, w: nat, t: nat)
    requires t <= w && x < Pow2(w)
    ensures Pow2(t) <= Pow2(w)
    ensures And(x, Pow2(w) - Pow2(t)) == x - x % Pow2(t)
    decreases w
  {
    if t == 0 {
      AndAll(x, w);
    } else {
      AndHigh(x / 2, w - 1, t - 1);
      ModDouble(x, Pow2(t - 1));
    }
  }

  // ---- what a network and its mask cover ----

  /** The address as one 32-bit number. */
  function Number(q: Quad): nat {
    ((q.a * 256 + q.b) * 256 + q.c) * 256 + q.d
  }

  lemma {:induction false} Pow2Add(i: nat, j: nat)
    ensures Pow2(i + j) == Pow2(i) * Pow2(j)
  {
    if i > 0 {
      Pow2Add(i - 1, j);
      assert Pow2(i) * Pow2(j) == 2 * (Pow2(i - 1) * Pow2(j));
    }
  }

  lemma NumberInjective(q: Quad, r: Quad)
    requires Number(q) == Number(r)
    ensures q == r
  {
    var m, n := (q.a * 256 + q.b) * 256 + q.c, (r.a * 256 + r.b) * 256 + r.c;
    assert Number(q) == m * 256 + q.d && Number(r) == n * 256 + r.d;
    assert m == n;
    assert q.a * 256 + q.b == r.a * 256 + r.b;
  }

  lemma AndHalf(x: nat, y: nat)
    ensures And(x, y) == 2 * And(x / 2, y / 2) + (if x % 2 == 1 && y % 2 == 1 then 1 else 0)
  {
  }

  lemma HalfOf(h: nat, x: nat, m: nat)
    ensures (h * (2 * m) + x) / 2 == h * m + x / 2 && (h * (2 * m) + x) % 2 == x % 2
  {
  }

  /** One bit of AndConcat: high is the and of the upper halves, in place. */
  lemma AndConcatStep(x: nat, y: nat, low: nat, low': nat, high: nat)
    requires x % 2 == low % 2 && y % 2 == low' % 2
    requires And(x / 2, y / 2) == high + And(low / 2, low' / 2)
    ensures And(x, y) == 2 * high + And(low, low')
  {
    AndHalf(x, y);
    AndHalf(low, low');
  }

  lemma AndConcatMore(h: nat, x: nat, h': nat, x': nat, m: nat)
    requires And(h * m + x / 2, h' * m + x' / 2) == And(h, h') * m + And(x / 2, x' / 2)
    ensures And(h * (2 * m) + x, h' * (2 * m) + x') == And(h, h') * (2 * m) + And(x, x')
  {
    hide And;
    HalfOf(h, x, m);
    HalfOf(h', x', m);
    AndConcatStep(h * (2 * m) + x, h' * (2 * m) + x', x, x', And(h, h') * m);
    assert And(h, h') * (2 * m) == 2 * (And(h, h') * m);
  }

  /** The and of two numbers, taken w low bits at a time. */
  lemma {:induction false} AndConcat(h: nat, x: nat, h': nat, x': nat, w: nat)
    requires x < Pow2(w) && x' < Pow2(w)
    ensures And(h * Pow2(w) + x, h' * Pow2(w) + x') == And(h, h') * Pow2(w) + And(x, x')
  {
    assert And(0, 0) == 0;
    hide And;
    if w > 0 {
      AndConcat(h, x / 2, h', x' / 2, w - 1);
      AndConcatMore(h, x, h', x', Pow2(w - 1));
    }
  }

  lemma AndByte(h: nat, x: Octet, h': nat, x': Octet)
    ensures And(h * 256 + x, h' * 256 + x') == And(h, h') * 256 + And(x, x')
  {
    Pow2Table();
    AndConcat(h, x, h', x', 8);
  }

  lemma MaskedNumber(q: Quad, m: Quad)
    ensures Number(Masked(q, m)) == And(Number(q), Number(m))
  {
    hide And;
    AndByte(q.a, q.b, m.a, m.b);
    AndByte(q.a * 256 + q.b, q.c, m.a * 256 + m.b, m.c);
    AndByte((q.a * 256 + q.b) * 256 + q.c, q.d, (m.a * 256 + m.b) * 256 + m.c, m.d);
  }

  /** The power of two that the octets below octet i are worth. */
  lemma Pow2Bytes(k: nat)
    ensures Pow2(k + 8) == Pow2(k) * 256
  {
    Pow2Table();
    Pow2Add(k, 8);
  }

  lemma Pow2Of32()
    ensures Pow2(32) == 0x1_0000_0000
  {
    Pow2Table();
    Pow2Bytes(8);
    Pow2Bytes(16);
    Pow2Bytes(24);
  }

  lemma MaskOctetEnds()
    ensures MaskOctet(0) == 0 && MaskOctet(8) == 255
  {
  }

  /** The octets of a mask: full ones, then one in part, then empty ones. */
  lemma MaskParts(n: nat)
    requires n <= 32
    ensures n <= 8 ==> Mask(n) == Quad(MaskOctet(n), 0, 0, 0)
    ensures 8 < n <= 16 ==> Mask(n) == Quad(255, MaskOctet(n - 8), 0, 0)
    ensures 16 < n <= 24 ==> Mask(n) == Quad(255, 255, MaskOctet(n - 16), 0)
    ensures 24 < n ==> Mask(n) == Quad(255, 255, 255, MaskOctet(n - 24))
  {
    MaskOctetEnds();
    hide MaskOctet;
  }

  lemma MaskOctetValue(n: nat)
    requires n <= 8
    ensures MaskOctet(n) == 256 - Pow2(8 - n)
  {
  }

  lemma MaskNumber(n: nat)
    requires n <= 32
    ensures Number(Mask(n)) == 0x1_0000_0000 - Pow2(32 - n)
  {
    hide Pow2, Mask, MaskOctet;
    MaskParts(n);
    if n <= 8 {
      MaskOctetValue(n);
      Pow2Bytes(8 - n); Pow2Bytes(16 - n); Pow2Bytes(24 - n);
    } else if n <= 16 {
      MaskOctetValue(n - 8);
      Pow2Bytes(16 - n); Pow2Bytes(24 - n);
    } else if n <= 24 {
      MaskOctetValue(n - 16);
      Pow2Bytes(24 - n);
    } else {
      MaskOctetValue(n - 24);
    }
  }

  lemma NumberBound(q: Quad)
    ensures Number(q) < 0x1_0000_0000
  {
  }

  lemma AndPrefix(x: nat, t: nat)
    requires x < 0x1_0000_0000 && t <= 32
    ensures Pow2(t) <= 0x1_0000_0000 && And(x, 0x1_0000_0000 - Pow2(t)) == x - x % Pow2(t)
  {
    Pow2Of32();
    AndHigh(x, 32, t);
  }

  lemma MaskedPrefix(q: Quad, n: nat)
    requires n <= 32
    ensures Number(Masked(q, Mask(n))) == Number(q) - Number(q) % Pow2(32 - n)
  {
    hide And, Pow2, Mask, Masked, Number;
    NumberBound(q);
    MaskNumber(n);
    MaskedNumber(q, Mask(n));
    AndPrefix(Number(q), 32 - n);
  }

  /** Rounding down to a multiple of p finds the start of the block of p numbers. */
  lemma RoundDown(x: nat, y: nat, p: nat)
    requires p > 0
    ensures var start := x - x % p;
            start % p == 0 && (y - y % p == start <==> start <= y < start + p)
  {
    var start := x - x % p;
    assert start == (x / p) * p;
    DivModUnique(start, p, x / p, 0);
    if start <= y < start + p { DivModUnique(y, p, x / p, y - start); }
  }

  /** The addresses that agree with one address on its first n bits. */
  predicate InBlock(q: Quad, n: nat, other: Quad)
    requires n <= 32
  {
    var start := Number(q) - Number(q) % Pow2(32 - n);
    start <= Number(other) < start + Pow2(32 - n)
  }

  /** CIDR arithmetic (section 3.1 of RFC 4632). The mask is contiguous; the
      network has no host bits; and masking an address gives that network exactly
      when it is one of the 2^(32-n) addresses from the network on. */
  lemma MaskArithmetic(q: Quad, n: nat, other: Quad)
    requires n <= 32
    ensures Number(Mask(n)) == 0x1_0000_0000 - Pow2(32 - n)
    ensures var net := Masked(q, Mask(n));
            && Number(net) == Number(q) - Number(q) % Pow2(32 - n)
            && Number(net) % Pow2(32 - n) == 0
            && (Masked(other, Mask(n)) == net <==> InBlock(q, n, other))
  {
    hide And, Pow2, Mask, Masked;
    MaskNumber(n);
    MaskedPrefix(q, n);
    MaskedPrefix(other, n);
    RoundDown(Number(q), Number(other), Pow2(32 - n));
    if Number(Masked(other, Mask(n))) == Number(Masked(q, Mask(n))) {
      NumberInjective(Masked(other, Mask(n)), Masked(q, Mask(n)));
    }
  }

  lemma SameQuotient(x: nat, y: nat, p: nat)
    requires p > 0
    ensures x - x % p <= y < x - x % p + p <==> y / p == x / p
  {
    assert x == (x / p) * p + x % p;
    assert y == (y / p) * p + y % p;
    if x - x % p <= y < x - x % p + p { DivModUnique(y, p, x / p, y - (x - x % p)); }
  }

  /** Agreeing on the first n bits is the same as having the same quotient. */
  lemma InBlockIsSharedPrefix(q: Quad, n: nat, other: Quad)
    requires n <= 32
    ensures InBlock(q, n, other) <==> Number(other) / Pow2(32 - n) == Number(q) / Pow2(32 - n)
  {
    hide Pow2, Number;
    SameQuotient(Number(q), Number(other), Pow2(32 - n));
  }

  // ---- SplitCIDR ----

  /** The prefix length of ParseCIDR: digits only, at most 32. */
  function ParsePrefix(s: string): Option<nat> {
    if s != "" && AllDigits(s) && ValueOf(s) <= 32 then Some(ValueOf(s)) else None
  }

  /** The text before and after the first slash. */
  function CutAtSlash(s: string): (string, string)
    requires '/' in s
  {
    if s[0] == '/' then ("", s[1..])
    else var (before, after) := CutAtSlash(s[1..]); ([s[0]] + before, after)
  }

  /** An address and a prefix length; a bare address is a block of one. */
  datatype Cidr = Cidr(addr: Quad, bits: nat)

  function ParseCidr(text: string): Option<Cidr> {
    if '/' !in text then
      match ParseAddr(text)
      case None => None
      case Some(q) => Some(Cidr(q, 32))
    else
      var (addr, mask) := CutAtSlash(text);
      match (ParseAddr(addr), ParsePrefix(mask))
      case (Some(q), Some(n)) => Some(Cidr(q, n))
      case _ => None
  }

  datatype Target = Target(network: string, netmask: string)

  /** The network and netmask OpenVPN is given, both as text. */
  function SplitCIDR(addr: string): Option<Target> {
    var text := TrimSpace(addr);
    if '/' !in text then
      match ParseAddr(text)
      case None => None
      case Some(q) => Some(Target(Format(q), "255.255.255.255"))
    else
      var (host, prefix) := CutAtSlash(text);
      match (ParseAddr(host), ParsePrefix(prefix))
      case (Some(q), Some(n)) => Some(Target(Format(Masked(q, Mask(n))), Format(Mask(n))))
      case _ => None
  }

  /** What a route covers: the addresses whose masked form is its network. */
  predicate Covers(t: Target, other: Quad) {
    match (ParseAddr(t.network), ParseAddr(t.netmask))
    case (Some(net), Some(mask)) => Masked(other, mask) == net
    case _ => false
  }

  lemma CutJoined(before: string, after: string)
    requires '/' !in before
    ensures CutAtSlash(before + "/" + after) == (before, after)
  {
    var s := before + "/" + after;
    if before == "" {
      assert s[1..] == after;
    } else {
      assert s[1..] == before[1..] + "/" + after;
      CutJoined(before[1..], after);
      assert [before[0]] + before[1..] == before;
    }
  }

  lemma AndFull(x: Octet)
    ensures And(x, 255) == x
  {
    Pow2Table();
    AndAll(x, 8);
  }

  lemma AllOnes(q: Quad)
    ensures Mask(32) == Quad(255, 255, 255, 255)
    ensures Masked(q, Mask(32)) == q
  {
    MaskOctetEnds();
    AndFull(q.a); AndFull(q.b); AndFull(q.c); AndFull(q.d);
  }

  lemma AllOnesText()
    ensures Format(Quad(255, 255, 255, 255)) == "255.255.255.255"
  {
  }

  /** SplitCIDR, bare address or not, is masking by the prefix. */
  lemma SplitIsMasking(addr: string)
    ensures var c := ParseCidr(TrimSpace(addr));
            SplitCIDR(addr) ==
              if c.None? then None
              else Some(Target(Format(Masked(c.value.addr, Mask(c.value.bits))), Format(Mask(c.value.bits))))
    ensures ParseCidr(TrimSpace(addr)).Some? ==> ParseCidr(TrimSpace(addr)).value.bits <= 32
  {
    var text := TrimSpace(addr);
    if '/' !in text && ParseAddr(text).Some? {
      AllOnes(ParseAddr(text).value);
      AllOnesText();
    }
  }

  /** An accepted address becomes a route covering exactly the block it names; one
      that names no block is refused. */
  lemma SplitCoversBlock(addr: string, other: Quad)
    ensures SplitCIDR(addr).Some? <==> ParseCidr(TrimSpace(addr)).Some?
    ensures SplitCIDR(addr).Some? ==>
              var c := ParseCidr(TrimSpace(addr)).value;
              c.bits <= 32 && (Covers(SplitCIDR(addr).value, other) <==> InBlock(c.addr, c.bits, other))
  {
    hide And, Pow2, Mask, Masked, SplitCIDR, ParseAddr, ParseCidr, Format;
    SplitIsMasking(addr);
    var c := ParseCidr(TrimSpace(addr));
    if c.Some? {
      var Cidr(q, n) := c.value;
      ParseFormat(Masked(q, Mask(n)));
      ParseFormat(Mask(n));
      MaskArithmetic(q, n, other);
    }
  }

  /** A bare address covers itself and nothing else. */
  lemma BareAddressCoversItself(addr: string, other: Quad)
    requires '/' !in TrimSpace(addr)
    ensures SplitCIDR(addr).Some? && Covers(SplitCIDR(addr).value, other) <==> ParseAddr(TrimSpace(addr)) == Some(other)
  {
    hide And, Mask, Masked, Covers, SplitCIDR, ParseAddr, TrimSpace;
    SplitCoversBlock(addr, other);
    var q := ParseAddr(TrimSpace(addr));
    if q.Some? {
      assert Pow2(32 - 32) == 1;
      if Number(q.value) == Number(other) { NumberInjective(q.value, other); }
    }
  }

  lemma FormatIsPlain(q: Quad)
    ensures var s := Format(q); s != "" && '/' !in s && !IsSpace(s[0])
  {
    var s := Format(q);
    DigitsHoldNo(q.a, '/'); DigitsHoldNo(q.b, '/'); DigitsHoldNo(q.c, '/'); DigitsHoldNo(q.d, '/');
    JoinHoldsNo([Digits(q.a), Digits(q.b), Digits(q.c), Digits(q.d)], '.', '/');
    assert s[0] == Digits(q.a)[0];
  }

  lemma TrimsToItself(s: string)
    requires s != "" && !IsSpace(s[0]) && !IsSpace(s[|s| - 1])
    ensures TrimSpace(s) == s
  {
  }

  /** Splitting the network with its prefix again changes nothing. */
  lemma SplitIsFixed(q: Quad, n: nat)
    requires n <= 32
    ensures var net := Masked(q, Mask(n));
            SplitCIDR(Format(net) + "/" + Digits(n)) == Some(Target(Format(net), Format(Mask(n))))
  {
    hide And, Pow2, Mask, Masked, ParseAddr, Format, Digits, TrimSpace, ValueOf;
    var net := Masked(q, Mask(n));
    var text := Format(net) + "/" + Digits(n);
    FormatIsPlain(net);
    TrimsToItself(text);
    CutJoined(Format(net), Digits(n));
    assert text[|Format(net)|] == '/';
    ParseFormat(net);
    ValueOfDigits(n);
    MaskArithmetic(q, n, net);
    RoundDown(Number(q), Number(net), Pow2(32 - n));
  }
}
