/** Subnet overlap and subnet naming of the site-to-site wizard
    (internal/services/vpn_s2s.go, internal/services/vpn.go). */
module Cidrs {
  import opened Text
  import opened Arith

  datatype Family = V4 | V6 {
    function Bits(): nat { if V4? then 32 else 128 }
    function Limit(): int { if V4? then 0x1_0000_0000 else 0x1_0000_0000_0000_0000_0000_0000_0000_0000 }
  }

  /** A parsed CIDR: a family, an address of that family and a prefix length. */
  datatype Cidr = Cidr(family: Family, addr: int, len: int) {
    predicate Valid() { 0 <= addr < family.Limit() && 0 <= len <= family.Bits() }
  }

  datatype Addr = Addr(family: Family, value: int)

  /** Addresses per block. */
  function Size(family: Family, len: int): int
    requires 0 <= len <= family.Bits()
  {
    Pow2(family.Bits() - len)
  }

  /** net.ParseCIDR keeps the masked address. */
  function Base(c: Cidr): Addr
    requires c.Valid()
  {
    Addr(c.family, c.addr - c.addr % Size(c.family, c.len))
  }

  /** IPNet.Contains compares masked addresses, and refuses the other family. */
  predicate Contains(c: Cidr, x: Addr)
    requires c.Valid()
  {
    x.family == c.family && x.value / Size(c.family, c.len) == c.addr / Size(c.family, c.len)
  }

  // ---------- Prefixes bit by bit ----------

  function Bit(x: int, i: nat): int { x / Pow2(i) % 2 }

  lemma HalveOnce(x: int, k: nat)
    ensures x / Pow2(k) == 2 * (x / Pow2(k + 1)) + Bit(x, k)
  {
    DivTwice(x, Pow2(k), 2, Pow2(k + 1));
  }

  /** Two numbers below 2^n agree after dropping k bits exactly when all their other bits agree. */
  lemma {:induction false} TopBits(x: int, y: int, k: nat, n: nat)
    requires k <= n && 0 <= x < Pow2(n) && 0 <= y < Pow2(n)
    ensures x / Pow2(k) == y / Pow2(k) <==> forall i :: k <= i < n ==> Bit(x, i) == Bit(y, i)
    decreases n - k
  {
    hide Bit, Pow2;
    if k == n {
      SmallQuotient(x, Pow2(n));
      SmallQuotient(y, Pow2(n));
    } else {
      HalveOnce(x, k);
      HalveOnce(y, k);
      BitRange(x, k);
      BitRange(y, k);
      TopBits(x, y, k + 1, n);
      if forall i :: k + 1 <= i < n ==> Bit(x, i) == Bit(y, i) {
        assert (forall i :: k <= i < n ==> Bit(x, i) == Bit(y, i)) <==> Bit(x, k) == Bit(y, k);
      }
    }
  }

  lemma BitRange(x: int, i: nat)
    ensures 0 <= Bit(x, i) <= 1
  {}

  lemma Limits(f: Family)
    ensures f.Limit() == Pow2(f.Bits())
  {
    hide Pow2;
    EightBits();
    Pow2Adds(8, 8);
    Pow2Adds(16, 16);
    Pow2Adds(32, 32);
    Pow2Adds(64, 64);
  }

  /** A block contains the addresses of its family that agree with its own in the first `len` bits. */
  lemma ContainsMeans(c: Cidr, x: Addr)
    requires c.Valid() && 0 <= x.value < x.family.Limit()
    ensures Contains(c, x) <==>
            x.family == c.family && forall i :: c.family.Bits() - c.len <= i < c.family.Bits() ==> Bit(x.value, i) == Bit(c.addr, i)
  {
    hide Bit, Pow2;
    Limits(c.family);
    if x.family == c.family { TopBits(x.value, c.addr, c.family.Bits() - c.len, c.family.Bits()); }
  }

  // ---------- Aligned blocks ----------

  lemma BaseInside(c: Cidr)
    requires c.Valid()
    ensures Contains(c, Base(c)) && 0 <= Base(c).value <= c.addr
  {
    var size := Size(c.family, c.len);
    RoundDown(c.addr, size);
    Multiples(c.addr / size, size);
  }

  /** A block that shares an address with a longer-prefixed one contains its base. */
  lemma WiderHoldsBase(wide: Cidr, narrow: Cidr, x: Addr)
    requires wide.Valid() && narrow.Valid() && wide.len <= narrow.len
    requires Contains(wide, x) && Contains(narrow, x)
    ensures Contains(wide, Base(narrow))
  {
    var f := wide.family;
    var s, t, k := Size(f, narrow.len), Size(f, wide.len), Pow2(narrow.len - wide.len);
    Pow2Adds(f.Bits() - narrow.len, narrow.len - wide.len);
    assert t == s * k;
    BaseInside(narrow);
    DivTwice(x.value, s, k, t);
    DivTwice(Base(narrow).value, s, k, t);
  }

  /** Two blocks share an address exactly when one contains the other's base address. */
  lemma OverlapIff(a: Cidr, b: Cidr)
    requires a.Valid() && b.Valid()
    ensures Contains(a, Base(b)) || Contains(b, Base(a)) <==> SharesAddress(a, b)
  {
    BaseInside(a);
    BaseInside(b);
    hide Contains, Base;
    if Contains(a, Base(b)) {
      assert InBoth(a, b, Base(b));
    } else if Contains(b, Base(a)) {
      assert InBoth(a, b, Base(a));
    }
    if SharesAddress(a, b) {
      var x :| InBoth(a, b, x);
      if a.len <= b.len { WiderHoldsBase(a, b, x); } else { WiderHoldsBase(b, a, x); }
    }
  }

  ghost predicate InBoth(a: Cidr, b: Cidr, x: Addr)
    requires a.Valid() && b.Valid()
  {
    0 <= x.value < x.family.Limit() && Contains(a, x) && Contains(b, x)
  }

  ghost predicate SharesAddress(a: Cidr, b: Cidr)
    requires a.Valid() && b.Valid()
  {
    exists x :: InBoth(a, b, x)
  }

  type Block = c: Cidr | c.Valid() witness Cidr(V4, 0, 0)

  /** net.ParseCIDR of the trimmed text. */
  type CidrParser = string -> Option<Block>

  ghost predicate Clash(parse: CidrParser, r: string, l: string) {
    var a, b := parse(TrimSpace(r)), parse(TrimSpace(l));
    a.Some? && b.Some? && SharesAddress(a.value, b.value)
  }

  /** Some remote and some local subnet share an address. */
  ghost predicate Conflict(parse: CidrParser, remote: seq<string>, locals: seq<string>) {
    exists i, j :: 0 <= i < |remote| && 0 <= j < |locals| && Clash(parse, remote[i], locals[j])
  }

  /** subnetsConflict names the first remote subnet that shares an address with a local one. */
  method SubnetsConflict(parse: CidrParser, remote: seq<string>, locals: seq<string>) returns (r: Option<string>)
    ensures r.Some? <==> Conflict(parse, remote, locals)
    ensures r.Some? ==> exists i :: 0 <= i < |remote| && r.value == remote[i] && Conflict(parse, [remote[i]], locals)
                                    && !Conflict(parse, remote[..i], locals)
  {
    hide Clash;
    for i := 0 to |remote|
      invariant forall k, l :: 0 <= k < i && 0 <= l < |locals| ==> !Clash(parse, remote[k], locals[l])
    {
      var a := parse(TrimSpace(remote[i]));
      if a.None? {
        Unparsed(parse, remote[i], locals);
        continue;
      }
      for j := 0 to |locals|
        invariant forall l :: 0 <= l < j ==> !Clash(parse, remote[i], locals[l])
      {
        ClashIff(parse, remote[i], locals[j]);
        var b := parse(TrimSpace(locals[j]));
        if b.None? { continue; }
        if Contains(a.value, Base(b.value)) || Contains(b.value, Base(a.value)) {
          assert [remote[i]][0] == remote[i];
          assert forall k :: 0 <= k < i ==> remote[..i][k] == remote[k];
          return Some(remote[i]);
        }
      }
    }
    return None;
  }

  lemma ClashIff(parse: CidrParser, r: string, l: string)
    ensures var a, b := parse(TrimSpace(r)), parse(TrimSpace(l));
            Clash(parse, r, l) <==> a.Some? && b.Some? && (Contains(a.value, Base(b.value)) || Contains(b.value, Base(a.value)))
  {
    var a, b := parse(TrimSpace(r)), parse(TrimSpace(l));
    if a.Some? && b.Some? { OverlapIff(a.value, b.value); }
  }

  lemma Unparsed(parse: CidrParser, r: string, locals: seq<string>)
    requires parse(TrimSpace(r)).None?
    ensures forall j :: 0 <= j < |locals| ==> !Clash(parse, r, locals[j])
  {}

  // ---------- addressToSubnet ----------

  /** strings.LastIndex for one character; -1 when absent. */
  function LastIndexOf(s: string, c: char): (i: int)
    ensures -1 <= i < |s| && (i >= 0 ==> s[i] == c)
    ensures forall k :: i < k < |s| ==> s[k] != c
  {
    if s == [] then -1
    else if s[|s| - 1] == c then |s| - 1
    else LastIndexOf(s[..|s| - 1], c)
  }

  function AddressToSubnet(addr: string): string {
    var dot, slash := LastIndexOf(addr, '.'), IndexOf(addr, '/');
    if dot == -1 then addr
    else addr[..dot] + ".0" + (if slash < |addr| then addr[slash..] else "/24")
  }

  /** An address without a dot, such as an IPv6 one, is left alone. */
  lemma NoDotNoChange(addr: string)
    requires '.' !in addr
    ensures AddressToSubnet(addr) == addr
  {
  }

  function Quad(a: nat, b: nat, c: nat, d: nat): string { Dec(a) + "." + Dec(b) + "." + Dec(c) + "." + Dec(d) }

  function Mask(len: Option<nat>): string { if len.Some? then "/" + Dec(len.value) else "" }

  lemma LastDot(front: string, last: string, s: string)
    requires s == front + "." + last && '.' !in last
    ensures LastIndexOf(s, '.') == |front|
  {
    assert s[|front|] == '.';
    assert forall k :: |front| < k < |s| ==> s[k] == last[k - |front| - 1];
  }

  lemma FirstSlash(front: string, mask: string, s: string)
    requires s == front + mask && '/' !in front && (mask == "" || mask[0] == '/')
    ensures IndexOf(s, '/') == |front| && s[|front|..] == mask
  {
    if mask == "" {
      assert s == front;
      IndexOfAbsent(front, '/');
    } else {
      IndexOfFirst(front, '/', mask[1..]);
      assert s == front + ['/'] + mask[1..];
    }
  }

  lemma ReplacesLast(front: string, last: string, mask: string)
    requires '.' !in last + mask && '/' !in front + "." + last && (mask == "" || mask[0] == '/')
    ensures AddressToSubnet(front + "." + last + mask) == front + ".0" + (if mask == "" then "/24" else mask)
  {
    hide LastIndexOf, IndexOf;
    var s := front + "." + last + mask;
    assert s == front + "." + (last + mask);
    LastDot(front, last + mask, s);
    FirstSlash(front + "." + last, mask, s);
    assert s[..|front|] == front;
  }

  /** On an address with or without a prefix length only the last number is replaced. */
  lemma SubnetText(a: nat, b: nat, c: nat, d: nat, len: Option<nat>)
    ensures AddressToSubnet(Quad(a, b, c, d) + Mask(len)) == Quad(a, b, c, 0) + (if len.Some? then Mask(len) else "/24")
  {
    hide AddressToSubnet;
    var front, zero := Dec(a) + "." + Dec(b) + "." + Dec(c), Dec(0);
    assert zero == "0";
    assert '.' !in Dec(d) && '.' !in Mask(len);
    assert '/' !in front && '/' !in Dec(d);
    ReplacesLast(front, Dec(d), Mask(len));
    assert front + ".0" == front + "." + zero;
  }

  function Address(n: int, d: int): int { n * 256 + d }

  lemma QuotientUpTo24(n: int, d: int, len: int)
    requires 0 <= d < 256 && 0 <= len <= 24
    ensures Address(n, d) / Size(V4, len) == n / Pow2(24 - len)
  {
    EightBits();
    Pow2Adds(8, 24 - len);
    DivTwice(Address(n, d), 256, Pow2(24 - len), Size(V4, len));
    DivUnique(Address(n, d), n, d, 256);
  }

  lemma QuotientBeyond24(n: int, d: int, len: int)
    requires 0 <= d < 256 && 24 < len <= 32
    ensures Address(n, d) / Size(V4, len) == n * Pow2(len - 24) + d / Size(V4, len)
  {
    var s, m := Size(V4, len), Pow2(len - 24);
    EightBits();
    Pow2Adds(len - 24, 32 - len);
    Associate(n, m, s);
    Distribute(n * m, d / s, s);
    DivUnique(Address(n, d), n * m + d / s, d % s, s);
  }

  /** With the last number zeroed the masked network stays the same exactly when the prefix has at most
      24 bits or the dropped number lies in the first block of its /24. */
  lemma SubnetKeptIff(n: int, d: int, len: int)
    requires 0 <= n < 0x100_0000 && 0 <= d < 256 && 0 <= len <= 32
    ensures Base(Cidr(V4, Address(n, 0), len)) == Base(Cidr(V4, Address(n, d), len)) <==> len <= 24 || d < Size(V4, len)
  {
    var s, x, y := Size(V4, len), Address(n, 0), Address(n, d);
    RoundDown(x, s);
    RoundDown(y, s);
    SameMultiple(x / s, y / s, s);
    if len <= 24 {
      QuotientUpTo24(n, 0, len);
      QuotientUpTo24(n, d, len);
    } else {
      QuotientBeyond24(n, 0, len);
      QuotientBeyond24(n, d, len);
      SmallQuotient(d, s);
      SmallQuotient(0, s);
    }
  }

  /** 10.0.0.130/25 becomes 10.0.0.0/25: the other half of the /24. */
  lemma HighHalfMoves()
    ensures AddressToSubnet(Quad(10, 0, 0, 130) + Mask(Some(25))) == Quad(10, 0, 0, 0) + Mask(Some(25))
    ensures Base(Cidr(V4, Address(0x0A_0000, 0), 25)) != Base(Cidr(V4, Address(0x0A_0000, 130), 25))
  {
    SubnetText(10, 0, 0, 130, Some(25));
    SubnetKeptIff(0x0A_0000, 130, 25);
    assert Pow2(7) == 128;
  }
}
