/**
 The virtual-IP allocator: a skipping cursor over an IPv4 prefix, with a forward and a reverse index.
 Addresses are 32-bit numbers; the one past 255.255.255.255 stands for the invalid address.
 */
module VipAllocator {
  import opened Common

  ghost predicate Aligned(base: nat, size: nat, q: nat) {
    base == q * size
  }

  /** A masked IPv4 prefix. */
  datatype Prefix = Prefix(base: nat, bits: nat)
  {
    function Size(): nat
      requires bits <= 32
    {
      Pow2(32 - bits)
    }

    ghost predicate Valid() {
      && bits <= 32
      && (exists q: nat :: Aligned(base, Size(), q))
      && base + Size() <= 0x1_0000_0000
    }

    predicate Contains(ip: nat)
      requires bits <= 32
    {
      base <= ip < base + Size()
    }
  }

  datatype Cidr = Malformed | IPv6 | IPv4(addr: nat, bits: nat)

  function Mask(addr: nat, size: nat): nat
    requires size > 0
  {
    (addr / size) * size
  }

  /** Only IPv4 ranges are accepted, and the host bits are masked off. */
  function ParsedPrefix(c: Cidr): (r: Option<Prefix>)
    requires c.IPv4? ==> c.addr < 0x1_0000_0000 && c.bits <= 32
    ensures r.Some? <==> c.IPv4?
    ensures r.Some? ==> r.value.Valid() && r.value.bits == c.bits && r.value.Contains(c.addr)
  {
    if c.IPv4? then
      Masked(c.addr, c.bits);
      Some(Prefix(Mask(c.addr, Pow2(32 - c.bits)), c.bits))
    else None
  }

  lemma Associative(x: int, y: int, z: int)
    ensures x * (y * z) == (x * y) * z
  {
  }

  lemma Distributive(x: int, y: int, z: int)
    ensures (x + y) * z == x * z + y * z
  {
  }

  lemma {:induction false} Pow2Product(a: nat, b: nat)
    ensures Pow2(a + b) == Pow2(a) * Pow2(b)
  {
    if a > 0 {
      Pow2Product(a - 1, b);
      Associative(2, Pow2(a - 1), Pow2(b));
    }
  }

  lemma MaskFacts(addr: nat, size: nat, n: nat)
    requires size > 0 && addr < n * size
    ensures Aligned(Mask(addr, size), size, addr / size)
    ensures Mask(addr, size) <= addr < Mask(addr, size) + size <= n * size
  {
    var q := addr / size;
    assert addr == q * size + addr % size;
    AlignedBelow(q, n, size);
  }

  lemma NotBelow(n: nat, q: nat, size: nat)
    requires n <= q
    ensures n * size <= q * size
  {
    Distributive(n, q - n, size);
  }

  lemma AlignedBelow(q: nat, n: nat, size: nat)
    requires q * size < n * size
    ensures q * size + size <= n * size
  {
    if n <= q {
      NotBelow(n, q, size);
    }
    NotBelow(q + 1, n, size);
    Distributive(q, 1, size);
  }

  lemma Masked(addr: nat, bits: nat)
    requires addr < 0x1_0000_0000 && bits <= 32
    ensures var p := Prefix(Mask(addr, Pow2(32 - bits)), bits);
            p.Valid() && p.Contains(addr)
  {
    Pow2Product(bits, 32 - bits);
    ThirtyTwo();
    var size := Pow2(32 - bits);
    MaskFacts(addr, size, Pow2(bits));
    var q: nat := addr / size;
    var p := Prefix(Mask(addr, size), bits);
    assert Aligned(p.base, p.Size(), q);
  }

  lemma ThirtyTwo()
    ensures Pow2(32) == 0x1_0000_0000
  {
    assert Pow2(8) == 256;
    Pow2Product(8, 8);
    Pow2Product(16, 16);
  }

  predicate IsUsable(ip: nat) {
    ip % 256 != 0 && ip % 256 != 255
  }

  // ---- The closed form ----

  /** How many names a prefix can serve. */
  function Capacity(p: Prefix): nat
    requires p.bits <= 32
  {
    if p.bits <= 24 then 254 * Pow2(24 - p.bits)
    else if p.bits == 32 then 0
    else if (p.base + p.Size()) % 256 == 0 then p.Size() - 2
    else p.Size() - 1
  }

  /** The address of the k-th distinct name. */
  function Nth(p: Prefix, k: nat): nat {
    if p.bits <= 24 then p.base + 256 * (k / 254) + k % 254 + 1 else p.base + 1 + k
  }

  /** Where the search for the k-th address starts. */
  function Cursor(p: Prefix, k: nat): nat {
    if k == 0 then p.base + 1 else Nth(p, k - 1) + 1
  }

  lemma CursorAfter(p: Prefix, k: nat)
    ensures Cursor(p, k + 1) == Nth(p, k) + 1
  {
  }

  /** The position of a usable address in allocation order. */
  function Rank(p: Prefix, ip: nat): int {
    var d := ip - p.base;
    if p.bits <= 24 then 254 * (d / 256) + d % 256 - 1 else d - 1
  }

  lemma {:induction false} Pow2Blocks(n: nat)
    requires n >= 8
    ensures Pow2(n) == 256 * Pow2(n - 8)
  {
    if n > 8 {
      Pow2Blocks(n - 1);
    }
  }

  lemma Pow2Divides(n: nat)
    requires n <= 8
    ensures 256 % Pow2(n) == 0
  {
    assert Pow2(0) == 1 && Pow2(1) == 2 && Pow2(2) == 4 && Pow2(3) == 8 && Pow2(4) == 16;
    assert Pow2(5) == 32 && Pow2(6) == 64 && Pow2(7) == 128 && Pow2(8) == 256;
  }

  lemma MultipleOfBlocks(base: nat, blocks: nat)
    requires blocks > 0 && exists q: nat :: Aligned(base, 256 * blocks, q)
    ensures base % 256 == 0
  {
    var q: nat :| Aligned(base, 256 * blocks, q);
    assert q * (256 * blocks) == 256 * (blocks * q);
  }

  lemma WidePrefix(p: Prefix)
    requires p.Valid() && p.bits <= 24
    ensures p.base % 256 == 0 && p.Size() == 256 * Pow2(24 - p.bits)
  {
    Pow2Blocks(32 - p.bits);
    MultipleOfBlocks(p.base, Pow2(24 - p.bits));
  }

  lemma Division(q: nat, m: nat) returns (a: nat, r: nat)
    requires m > 0
    ensures q == a * m + r && r < m
  {
    a, r := q / m, q % m;
  }

  lemma Quotient(size: nat) returns (m: nat)
    requires size > 0 && 256 % size == 0
    ensures m > 0 && m * size == 256
  {
    m := 256 / size;
  }

  lemma NarrowSum(a: nat, r: nat, m: nat, size: nat)
    requires r < m && m * size == 256
    ensures (a * m + r) * size == a * 256 + r * size && r * size + size <= 256
  {
    Distributive(a * m, r, size);
    Associative(a, m, size);
    NotBelow(r + 1, m, size);
    Distributive(r, 1, size);
  }

  lemma NarrowProduct(q: nat, m: nat, size: nat)
    requires m > 0 && size > 0 && m * size == 256
    ensures (q * size) % 256 + size <= 256
  {
    var a, r := Division(q, m);
    NarrowSum(a, r, m, size);
    Remainder(a, r * size);
  }

  lemma Remainder(a: nat, y: nat)
    requires y < 256
    ensures (a * 256 + y) % 256 == y
  {
  }

  lemma Narrow(base: nat, size: nat)
    requires size > 0 && 256 % size == 0 && exists q: nat :: Aligned(base, size, q)
    ensures base % 256 + size <= 256
  {
    var q: nat :| Aligned(base, size, q);
    var m := Quotient(size);
    NarrowProduct(q, m, size);
  }

  /** A narrow prefix lies inside one block of 256 addresses. */
  lemma NarrowPrefix(p: Prefix)
    requires p.Valid() && p.bits > 24
    ensures p.base % 256 + p.Size() <= 256
  {
    Pow2Divides(32 - p.bits);
    Narrow(p.base, p.Size());
  }

  lemma InBlock(base: nat, a: nat, y: nat)
    requires base % 256 == 0 && y < 256
    ensures (base + 256 * a + y) % 256 == y && (base + 256 * a + y - base) / 256 == a
  {
  }

  /** In whole blocks: the k-th address, and the two before it when it opens a block. */
  lemma WideStep(p: Prefix, k: nat)
    requires p.bits <= 24 && p.base % 256 == 0
    ensures Nth(p, k) % 256 == k % 254 + 1
    ensures Nth(p, k) == if k == 0 || k % 254 != 0 then Cursor(p, k) else Cursor(p, k) + 2
    ensures k > 0 && k % 254 == 0 ==> Cursor(p, k) % 256 == 255 && (Cursor(p, k) + 1) % 256 == 0
  {
    InBlock(p.base, k / 254, k % 254 + 1);
    if k > 0 {
      Predecessor(k);
      InBlock(p.base, (k - 1) / 254, (k - 1) % 254 + 1);
      InBlock(p.base, k / 254, 0);
    }
  }

  lemma Predecessor(k: nat)
    requires k > 0
    ensures k % 254 != 0 ==> (k - 1) / 254 == k / 254 && (k - 1) % 254 == k % 254 - 1
    ensures k % 254 == 0 ==> (k - 1) / 254 == k / 254 - 1 && (k - 1) % 254 == 253
  {
  }

  /** The k-th address is usable, inside, and reached by skipping at most two unusable ones. */
  lemma NthIsNext(p: Prefix, k: nat)
    requires p.Valid() && k < Capacity(p)
    ensures p.Contains(Nth(p, k)) && IsUsable(Nth(p, k))
    ensures Cursor(p, k) <= Nth(p, k) <= Cursor(p, k) + 2
    ensures forall ip | Cursor(p, k) <= ip < Nth(p, k) :: !IsUsable(ip)
  {
    if p.bits <= 24 {
      WidePrefix(p);
      WideStep(p, k);
      assert k / 254 < Pow2(24 - p.bits);
    } else {
      NarrowPrefix(p);
      NarrowStep(p, 1 + k);
    }
  }

  lemma WithinBlock(a: nat, d: nat)
    requires a % 256 + d <= 256
    ensures (a + d) % 256 == if a % 256 + d == 256 then 0 else a % 256 + d
  {
    assert a + d == 256 * (a / 256) + (a % 256 + d);
  }

  lemma NarrowStep(p: Prefix, d: nat)
    requires p.bits <= 32 && p.base % 256 + p.Size() <= 256 && d < p.Size()
    ensures (p.base + d) % 256 == p.base % 256 + d
    ensures (p.base + p.Size()) % 256 == 0 <==> p.base % 256 + p.Size() == 256
  {
    WithinBlock(p.base, d);
    WithinBlock(p.base, p.Size());
  }

  /** Past the last one there are only unusable addresses. */
  lemma NothingAfterLast(p: Prefix)
    requires p.Valid()
    ensures p.base + p.Size() <= Cursor(p, Capacity(p)) + 2
    ensures Cursor(p, Capacity(p)) <= p.base + p.Size()
    ensures forall ip | Cursor(p, Capacity(p)) <= ip < p.base + p.Size() :: !IsUsable(ip)
  {
    if p.bits <= 24 {
      WidePrefix(p);
      WideStep(p, Capacity(p));
      WholeBlocks(p, Pow2(24 - p.bits));
    } else {
      NarrowPrefix(p);
      NarrowStep(p, p.Size() - 1);
    }
  }

  lemma WholeBlocks(p: Prefix, blocks: nat)
    requires p.bits <= 24 && blocks > 0
    ensures Nth(p, 254 * blocks) == p.base + 256 * blocks + 1 && (254 * blocks) % 254 == 0
  {
  }

  /** What a search for the k-th address meets first: that address, or the end of the pool. */
  function Target(p: Prefix, k: nat): nat
    requires p.bits <= 32
  {
    if k < Capacity(p) then Nth(p, k) else p.base + p.Size()
  }

  lemma ScanFacts(p: Prefix, k: nat)
    requires p.Valid() && k <= Capacity(p)
    ensures Cursor(p, k) <= Target(p, k) <= Cursor(p, k) + 2
    ensures forall ip | Cursor(p, k) <= ip < Target(p, k) :: p.Contains(ip) && !IsUsable(ip)
    ensures p.Contains(Target(p, k)) <==> k < Capacity(p)
    ensures k < Capacity(p) ==> IsUsable(Target(p, k))
  {
    if k < Capacity(p) {
      NthIsNext(p, k);
    } else {
      NothingAfterLast(p);
    }
  }

  /** The closed form lists exactly the usable addresses above the network address, in order. */
  lemma RankInvertsNth(p: Prefix, k: nat)
    ensures Rank(p, Nth(p, k)) == k
  {
    if p.bits <= 24 {
      var d := 256 * (k / 254) + k % 254 + 1;
      assert d / 256 == k / 254 && d % 256 == k % 254 + 1;
    }
  }

  lemma NthInvertsRank(p: Prefix, ip: nat)
    requires p.Valid() && p.base < ip && p.Contains(ip) && IsUsable(ip)
    ensures 0 <= Rank(p, ip) < Capacity(p) && Nth(p, Rank(p, ip)) == ip
  {
    if p.bits <= 24 {
      WidePrefix(p);
      WideInverse(p, ip, Pow2(24 - p.bits));
    } else {
      NarrowRank(p, ip);
    }
  }

  lemma WideInverse(p: Prefix, ip: nat, blocks: nat)
    requires p.bits <= 24 && p.base % 256 == 0 && p.base <= ip < p.base + 256 * blocks && IsUsable(ip)
    ensures 0 <= Rank(p, ip) < 254 * blocks && Nth(p, Rank(p, ip)) == ip
  {
    var d: nat := ip - p.base;
    WideRank(p.base, d, blocks);
    assert d == 256 * (d / 256) + d % 256;
  }

  lemma NarrowRank(p: Prefix, ip: nat)
    requires p.Valid() && p.bits > 24 && p.base < ip && p.Contains(ip) && IsUsable(ip)
    ensures 0 <= Rank(p, ip) < Capacity(p)
  {
    NarrowPrefix(p);
    NarrowStep(p, ip - p.base);
  }

  lemma WideRank(base: nat, d: nat, blocks: nat)
    requires base % 256 == 0 && d < 256 * blocks && IsUsable(base + d)
    ensures var k := 254 * (d / 256) + d % 256 - 1;
            0 <= k < 254 * blocks && k / 254 == d / 256 && k % 254 == d % 256 - 1
  {
    var a, y := d / 256, d % 256;
    assert (base + d) % 256 == y;
    assert a < blocks;
    assert a + 1 <= blocks;
  }

  lemma NthIncreases(p: Prefix, j: nat, k: nat)
    requires j < k
    ensures Nth(p, j) < Nth(p, k)
  {
  }

  // ---- Names in order of first allocation ----

  /** The allocation order after one more request. */
  function Extend(cap: nat, order: seq<string>, name: string): seq<string> {
    if name in order || |order| >= cap then order else order + [name]
  }

  function ExtendAll(cap: nat, order: seq<string>, names: seq<string>): seq<string> {
    if names == [] then order
    else Extend(cap, ExtendAll(cap, order, names[..|names| - 1]), names[|names| - 1])
  }

  lemma ExtendAllStep(cap: nat, order: seq<string>, names: seq<string>, i: nat)
    requires i < |names|
    ensures ExtendAll(cap, order, names[..i + 1]) == Extend(cap, ExtendAll(cap, order, names[..i]), names[i])
  {
    assert names[..i + 1][..i] == names[..i];
  }

  /** The distinct names of a list, in order of first occurrence. */
  function Distinct(names: seq<string>): seq<string> {
    if names == [] then []
    else
      var before, last := Distinct(names[..|names| - 1]), names[|names| - 1];
      if last in before then before else before + [last]
  }

  function Take(s: seq<string>, n: nat): seq<string> {
    if |s| <= n then s else s[..n]
  }

  /** After any list of requests the pool serves the first distinct names that fit, so the k-th
      distinct name requested gets the k-th address, and the rest get none. */
  lemma {:induction false} ServesFirstDistinct(cap: nat, names: seq<string>)
    ensures ExtendAll(cap, [], names) == Take(Distinct(names), cap)
  {
    if names != [] {
      var before, last := names[..|names| - 1], names[|names| - 1];
      ServesFirstDistinct(cap, before);
      var d := Distinct(before);
      if |d| < cap {
        assert Take(d, cap) == d;
      } else if last !in d {
        assert (d + [last])[..cap] == d[..cap];
      }
    }
  }

  ghost predicate NamesIndexed(p: Prefix, order: seq<string>, byName: map<string, nat>) {
    && (forall i, j | 0 <= i < j < |order| :: order[i] != order[j])
    && (forall name :: name in byName <==> name in order)
    && (forall k | 0 <= k < |order| :: byName[order[k]] == Nth(p, k))
  }

  ghost predicate AddressesIndexed(p: Prefix, order: seq<string>, byIP: map<nat, string>) {
    && (forall k | 0 <= k < |order| :: Nth(p, k) in byIP && byIP[Nth(p, k)] == order[k])
    && (forall ip <- byIP :: exists k | 0 <= k < |order| :: ip == Nth(p, k))
  }

  /** Both indexes list the order against the closed form, and nothing else. */
  ghost predicate Indexed(p: Prefix, order: seq<string>, byName: map<string, nat>, byIP: map<nat, string>) {
    NamesIndexed(p, order, byName) && AddressesIndexed(p, order, byIP)
  }

  lemma NthIsFree(p: Prefix, order: seq<string>, byIP: map<nat, string>)
    requires AddressesIndexed(p, order, byIP)
    ensures Nth(p, |order|) !in byIP
  {
    if Nth(p, |order|) in byIP {
      var k :| 0 <= k < |order| && Nth(p, |order|) == Nth(p, k);
      NthIncreases(p, k, |order|);
    }
  }

  lemma AddressesGrow(p: Prefix, order: seq<string>, byIP: map<nat, string>, name: string)
    requires AddressesIndexed(p, order, byIP)
    ensures AddressesIndexed(p, order + [name], byIP[Nth(p, |order|) := name])
  {
    var ip := Nth(p, |order|);
    NthIsFree(p, order, byIP);
    var grown := byIP[ip := name];
    forall a | a in grown
      ensures exists k | 0 <= k < |order + [name]| :: a == Nth(p, k)
    {
      if a in byIP {
        var k :| 0 <= k < |order| && a == Nth(p, k);
        assert k < |order + [name]|;
      }
    }
  }

  lemma IndexedGrows(p: Prefix, order: seq<string>, byName: map<string, nat>, byIP: map<nat, string>, name: string)
    requires Indexed(p, order, byName, byIP) && name !in byName
    ensures var ip := Nth(p, |order|);
            Indexed(p, order + [name], byName[name := ip], byIP[ip := name])
  {
    AddressesGrow(p, order, byIP, name);
  }

  /** The cursor after `n` allocations: behind the last one, or at the end of an exhausted prefix. */
  ghost predicate CursorAt(p: Prefix, n: nat, next: nat)
    requires p.bits <= 32
  {
    n <= Capacity(p) && (next == Cursor(p, n) || (n == Capacity(p) && next == p.base + p.Size()))
  }

  lemma Recorded(p: Prefix, order: seq<string>, byName: map<string, nat>, byIP: map<nat, string>,
                 name: string, ip: nat)
    requires p.bits <= 32 && |order| < Capacity(p) && Indexed(p, order, byName, byIP)
    requires name !in order && ip == Nth(p, |order|)
    ensures Indexed(p, order + [name], byName[name := ip], byIP[ip := name])
    ensures CursorAt(p, |order + [name]|, ip + 1)
  {
    CursorAdvances(p, |order|);
    IndexedGrows(p, order, byName, byIP, name);
  }

  lemma CursorAdvances(p: Prefix, n: nat)
    requires p.bits <= 32 && n < Capacity(p)
    ensures CursorAt(p, n + 1, Nth(p, n) + 1)
  {
    CursorAfter(p, n);
  }

  ghost predicate Inverse(byName: map<string, nat>, byIP: map<nat, string>) {
    && (forall name <- byName :: byName[name] in byIP && byIP[byName[name]] == name)
    && (forall ip <- byIP :: byIP[ip] in byName && byName[byIP[ip]] == ip)
  }

  /** The service behind an address, or "" if there is none. */
  function ServiceOf(byIP: map<nat, string>, vip: nat): string {
    if vip in byIP then byIP[vip] else ""
  }

  /** The two indexes are mutually inverse. */
  lemma IndexesAreInverse(p: Prefix, order: seq<string>, byName: map<string, nat>, byIP: map<nat, string>)
    requires Indexed(p, order, byName, byIP)
    ensures Inverse(byName, byIP)
  {
    forall name <- byName
      ensures byName[name] in byIP && byIP[byName[name]] == name
    {
      var k :| 0 <= k < |order| && order[k] == name;
    }
  }

  /** The allocated addresses are exactly the usable ones between the network address and the cursor. */
  lemma AllocatedBelowCursor(p: Prefix, order: seq<string>, byName: map<string, nat>, byIP: map<nat, string>, ip: nat)
    requires p.Valid() && |order| <= Capacity(p) && Indexed(p, order, byName, byIP)
    ensures ip in byIP <==> p.base < ip < Cursor(p, |order|) && p.Contains(ip) && IsUsable(ip)
  {
    if ip in byIP {
      assert AddressesIndexed(p, order, byIP);
      var k :| 0 <= k < |order| && ip == Nth(p, k);
      NthIsNext(p, k);
      if k < |order| - 1 {
        NthIncreases(p, k, |order| - 1);
      }
    } else if p.base < ip && p.Contains(ip) && IsUsable(ip) {
      NthInvertsRank(p, ip);
      var k := Rank(p, ip);
      assert |order| <= k;
      if 0 < |order| {
        NthIncreases(p, |order| - 1, k);
      }
    }
  }

  datatype Allocation = Vip(ip: nat) | Exhausted

  // ---- The allocator ----

  class Allocator {
    const prefix: Prefix
    var nameToIP: map<string, nat>
    var ipToName: map<nat, string>
    var next: nat
    ghost var order: seq<string>   // the allocated names, oldest first

    /** Both indexes list the order against the closed form, and the cursor is where it should be. */
    ghost predicate Valid()
      reads this
    {
      && prefix.Valid()
      && Indexed(prefix, order, nameToIP, ipToName)
      && CursorAt(prefix, |order|, next)
    }

    constructor (prefix: Prefix)
      requires prefix.Valid()
      ensures Valid() && this.prefix == prefix && order == []
    {
      this.prefix := prefix;
      nameToIP, ipToName := map[], map[];
      next := prefix.base + 1;
      order := [];
    }

    function LookupName(name: string): Option<nat>
      reads this
    {
      if name in nameToIP then Some(nameToIP[name]) else None
    }

    function Lookup(vip: nat): string
      reads this
    {
      ServiceOf(ipToName, vip)
    }

    /** The search loop, from the cursor to a target that only unusable addresses separate it from. */
    method Search(ghost target: nat) returns (r: Option<nat>)
      requires prefix.bits <= 32 && next <= target <= next + 2
      requires forall ip | next <= ip < target :: prefix.Contains(ip) && !IsUsable(ip)
      requires prefix.Contains(target) ==> IsUsable(target) && target !in ipToName
      modifies this`next
      ensures prefix.Contains(target) ==> r == Some(target) && next == target + 1
      ensures !prefix.Contains(target) ==> r == None && next == target
    {
      while true
        invariant next <= target
        invariant forall ip | next <= ip < target :: prefix.Contains(ip) && !IsUsable(ip)
        decreases target - next
      {
        if !prefix.Contains(next) {
          return None;
        }
        var ip := next;
        next := next + 1;
        if !IsUsable(ip) {
          continue;
        }
        assert ip !in ipToName;   // an address below the cursor is never met again
        return Some(ip);
      }
    }

    lemma SearchIsReady()
      requires Valid()
      ensures next <= Target(prefix, |order|) <= next + 2
      ensures forall ip | next <= ip < Target(prefix, |order|) :: prefix.Contains(ip) && !IsUsable(ip)
      ensures prefix.Contains(Target(prefix, |order|)) ==> IsUsable(Target(prefix, |order|))
      ensures prefix.Contains(Target(prefix, |order|)) ==> Target(prefix, |order|) !in ipToName
      ensures prefix.Contains(Target(prefix, |order|)) <==> |order| < Capacity(prefix)
    {
      ScanFacts(prefix, |order|);
      NthIsFree(prefix, order, ipToName);
    }

    /** The address found for a new name enters both indexes. */
    method Record(name: string, ip: nat)
      requires prefix.Valid() && |order| < Capacity(prefix) && Indexed(prefix, order, nameToIP, ipToName)
      requires name !in order && ip == Nth(prefix, |order|) && next == ip + 1
      modifies this`nameToIP, this`ipToName, this`order
      ensures Valid() && order == old(order) + [name]
      ensures nameToIP == old(nameToIP)[name := ip]
    {
      Recorded(prefix, order, nameToIP, ipToName, name, ip);
      var byName, byIP := nameToIP[name := ip], ipToName[ip := name];
      nameToIP, ipToName, order := byName, byIP, order + [name];
    }

    /** A known name keeps its address. A new one gets the next address of the closed form, unless
        the pool is exhausted, and then both indexes stay as they are. */
    method Allocate(name: string) returns (r: Allocation)
      requires Valid()
      modifies this
      ensures Valid()
      ensures order == Extend(Capacity(prefix), old(order), name)
      ensures name in order <==> r.Vip?
      ensures r.Vip? ==> name in nameToIP && r.ip == nameToIP[name]
      ensures name !in old(order) && r.Vip? ==> r.ip == Nth(prefix, |old(order)|)
      ensures forall n | n in old(nameToIP) :: n in nameToIP && nameToIP[n] == old(nameToIP[n])
      ensures r.Exhausted? ==> nameToIP == old(nameToIP) && ipToName == old(ipToName)
      ensures old(next) <= next <= old(next) + 3
    {
      if name in nameToIP {
        return Vip(nameToIP[name]);
      }
      ghost var k := |order|;
      SearchIsReady();
      var found := Search(Target(prefix, k));
      if found.None? {
        return Exhausted;
      }
      Record(name, found.value);
      return Vip(found.value);
    }

    /** Nothing but the cursor tells an allocated address from a free one. */
    lemma CursorSplitsPool(ip: nat)
      requires Valid()
      ensures ip in ipToName <==> prefix.base < ip < next && prefix.Contains(ip) && IsUsable(ip)
    {
      AllocatedBelowCursor(prefix, order, nameToIP, ipToName, ip);
      ScanFacts(prefix, |order|);
    }

    /** Forward and reverse lookups agree. */
    lemma LookupsAgree(name: string, ip: nat)
      requires Valid() && name != ""
      ensures Inverse(nameToIP, ipToName)
      ensures LookupName(name) == Some(ip) <==> Lookup(ip) == name
    {
      IndexesAreInverse(prefix, order, nameToIP, ipToName);
    }

    /** Any list of requests, as at startup over the consumed services. */
    method AllocateAll(names: seq<string>)
      requires Valid()
      modifies this
      ensures Valid() && order == ExtendAll(Capacity(prefix), old(order), names)
    {
      var i := 0;
      while i < |names|
        invariant 0 <= i <= |names| && Valid()
        invariant order == ExtendAll(Capacity(prefix), old(order), names[..i])
      {
        ExtendAllStep(Capacity(prefix), old(order), names, i);
        var _ := Allocate(names[i]);
        i := i + 1;
      }
      assert names[..i] == names;
    }
  }
}
