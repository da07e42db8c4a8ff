/** IPv4 addresses as four big-endian bytes: their numeric value, the
    increment the reconciler walks a segment with, their dotted-decimal
    text, and the masking that decides membership of a CIDR segment. */
module IPv4 {

  type Byte = b: int | 0 <= b < 256

  /** A four-byte address, as `To4()` returns it. */
  type Addr = s: seq<Byte> | |s| == 4 witness [0, 0, 0, 0]

  type PrefixLen = p: int | 0 <= p <= 32

  /** The number of IPv4 addresses, 2^32. */
  const Space: nat := 0x1_0000_0000

  function Pow2(n: nat): (r: nat)
    ensures r >= 1
  {
    if n == 0 then 1 else 2 * Pow2(n - 1)
  }

  function Pow256(n: nat): (r: nat)
    ensures r >= 1
  {
    if n == 0 then 1 else 256 * Pow256(n - 1)
  }

  // ---------------------------------------------------------------------
  // Numeric value of a byte string
  // ---------------------------------------------------------------------

  /** The bytes read as one big-endian number. */
  function ValueOf(s: seq<Byte>): nat
    decreases |s|
  {
    if s == [] then 0 else ValueOf(s[..|s| - 1]) * 256 + s[|s| - 1]
  }

  lemma {:induction false} ValueBound(s: seq<Byte>)
    ensures ValueOf(s) < Pow256(|s|)
    decreases |s|
  {
    if s != [] {
      ValueBound(s[..|s| - 1]);
    }
  }

  /** Two byte strings of one length with the same value are equal. */
  lemma {:induction false} ValueInjective(a: seq<Byte>, b: seq<Byte>)
    requires |a| == |b| && ValueOf(a) == ValueOf(b)
    ensures a == b
    decreases |a|
  {
    if a != [] {
      var n := |a| - 1;
      assert ValueOf(a) == ValueOf(a[..n]) * 256 + a[n];
      assert ValueOf(b) == ValueOf(b[..n]) * 256 + b[n];
      assert a[n] == b[n] && ValueOf(a[..n]) == ValueOf(b[..n]);
      ValueInjective(a[..n], b[..n]);
      assert a == a[..n] + [a[n]];
      assert b == b[..n] + [b[n]];
    }
  }

  /** The `len` lowest big-endian bytes of `n`. */
  function Bytes(n: nat, len: nat): (r: seq<Byte>)
    ensures |r| == len
  {
    if len == 0 then [] else Bytes(n / 256, len - 1) + [n % 256]
  }

  lemma {:induction false} BytesValue(n: nat, len: nat)
    requires n < Pow256(len)
    ensures ValueOf(Bytes(n, len)) == n
  {
    if len > 0 {
      BytesValue(n / 256, len - 1);
      var r := Bytes(n, len);
      assert r[..len - 1] == Bytes(n / 256, len - 1);
    }
  }

  /** The address whose value is `n`. */
  function FromValue(n: nat): (a: Addr)
    requires n < Space
    ensures ValueOf(a) == n
  {
    assert Pow256(4) == Space;
    BytesValue(n, 4);
    Bytes(n, 4)
  }

  /** Every address is the address of its value. */
  lemma FromValueOf(a: Addr)
    ensures ValueOf(a) < Space && FromValue(ValueOf(a)) == a
  {
    ValueBound(a);
    assert Pow256(4) == Space;
    ValueInjective(FromValue(ValueOf(a)), a);
  }

  // ---------------------------------------------------------------------
  // incrementIP: a big-endian byte counter
  // ---------------------------------------------------------------------

  /** What `incrementIP` leaves in the bytes: trailing 255s become 0 and
      the last byte below 255 goes up by one. */
  function Incremented(s: seq<Byte>): (r: seq<Byte>)
    ensures |r| == |s|
    decreases |s|
  {
    if s == [] then []
    else if s[|s| - 1] == 255 then Incremented(s[..|s| - 1]) + [0]
    else s[..|s| - 1] + [s[|s| - 1] + 1]
  }

  /** Incrementing adds one to the value, wrapping to zero past the top. */
  lemma {:induction false} IncrementedValue(s: seq<Byte>)
    ensures ValueOf(s) + 1 < Pow256(|s|) ==> ValueOf(Incremented(s)) == ValueOf(s) + 1
    ensures ValueOf(s) + 1 == Pow256(|s|) ==> ValueOf(Incremented(s)) == 0
    decreases |s|
  {
    ValueBound(s);
    if s != [] {
      var n := |s| - 1;
      var p := s[..n];
      ValueBound(p);
      IncrementedValue(p);
      var r := Incremented(s);
      assert r[..n] == (if s[n] == 255 then Incremented(p) else p);
      assert ValueOf(r) == ValueOf(r[..n]) * 256 + r[n];
    }
  }

  /** For a four-byte address, `incrementIP` computes (n + 1) mod 2^32. */
  lemma IncrementedAddr(a: Addr)
    ensures |Incremented(a)| == 4
    ensures ValueOf(Incremented(a)) == (ValueOf(a) + 1) % Space
  {
    assert Pow256(4) == Space;
    ValueBound(a);
    IncrementedValue(a);
  }

  /** Trailing 255s roll over to zeros and the carry moves left. */
  lemma {:induction false} IncrementedCarry(s: seq<Byte>, i: nat)
    requires i <= |s|
    requires forall k :: i <= k < |s| ==> s[k] == 255
    ensures Incremented(s) == Incremented(s[..i]) + seq(|s| - i, _ => 0)
    decreases |s| - i
  {
    if i < |s| {
      var n := |s| - 1;
      assert s[..n][..i] == s[..i];
      IncrementedCarry(s[..n], i);
    } else {
      assert s[..i] == s;
    }
  }

  /** The in-place counter of `incrementIP` on a byte slice. */
  method IncrementIP(ip: array<Byte>)
    modifies ip
    ensures ip[..] == Incremented(old(ip[..]))
  {
    ghost var s := ip[..];
    for j := ip.Length downto 0
      invariant ip[..j] == s[..j]
      invariant forall k :: j <= k < ip.Length ==> s[k] == 255 && ip[k] == 0
    {
      if ip[j] == 255 {
        ip[j] := 0;
      } else {
        ip[j] := ip[j] + 1;
        IncrementedCarry(s, j + 1);
        assert s[..j + 1][..j] == s[..j];
        assert ip[..] == s[..j] + [s[j] + 1] + seq(|s| - (j + 1), _ => 0);
        return;
      }
    }
    IncrementedCarry(s, 0);
    assert ip[..] == seq(|s|, _ => 0);
  }

  // ---------------------------------------------------------------------
  // Dotted-decimal text (`IP.String()` of a four-byte address)
  // ---------------------------------------------------------------------

  function Digit(d: int): (c: char)
    requires 0 <= d < 10
    ensures '0' <= c <= '9'
  {
    (48 + d) as char
  }

  /** A byte in decimal, without leading zeros. */
  function Decimal(b: Byte): (r: string)
    ensures 1 <= |r| <= 3 && '.' !in r
  {
    if b < 10 then [Digit(b)]
    else if b < 100 then [Digit(b / 10), Digit(b % 10)]
    else [Digit(b / 100), Digit(b / 10 % 10), Digit(b % 10)]
  }

  lemma DecimalInjective(a: Byte, b: Byte)
    requires Decimal(a) == Decimal(b)
    ensures a == b
  {
    DecimalLength(a);
    DecimalLength(b);
    if a < 10 {
      DigitInjective(a, b);
    } else if a < 100 {
      TwoDigits(a, b);
    } else {
      ThreeDigits(a, b);
    }
  }

  /** The number of digits tells which range a byte is in. */
  lemma DecimalLength(b: Byte)
    ensures |Decimal(b)| == 1 <==> b < 10
    ensures |Decimal(b)| == 2 <==> 10 <= b < 100
  {
  }

  lemma DigitInjective(d: int, e: int)
    requires 0 <= d < 10 && 0 <= e < 10 && Digit(d) == Digit(e)
    ensures d == e
  {
  }

  lemma TwoDigits(a: Byte, b: Byte)
    requires 10 <= a < 100 && 10 <= b < 100 && Decimal(a) == Decimal(b)
    ensures a == b
  {
    var r := Decimal(a);
    assert r[0] == Digit(a / 10) == Digit(b / 10);
    assert r[1] == Digit(a % 10) == Digit(b % 10);
    DigitInjective(a / 10, b / 10);
    DigitInjective(a % 10, b % 10);
  }

  lemma ThreeDigits(a: Byte, b: Byte)
    requires 100 <= a && 100 <= b && Decimal(a) == Decimal(b)
    ensures a == b
  {
    var r := Decimal(a);
    assert r[0] == Digit(a / 100) == Digit(b / 100);
    assert r[1] == Digit(a / 10 % 10) == Digit(b / 10 % 10);
    assert r[2] == Digit(a % 10) == Digit(b % 10);
    DigitInjective(a / 100, b / 100);
    DigitInjective(a / 10 % 10, b / 10 % 10);
    DigitInjective(a % 10, b % 10);
    var x, y := a / 10, b / 10;
    assert x / 10 == a / 100 && y / 10 == b / 100;
    assert x == 10 * (x / 10) + x % 10 && y == 10 * (y / 10) + y % 10;
    assert a == 10 * x + a % 10 && b == 10 * y + b % 10;
  }

  /** Decimal bytes joined by dots. */
  function Dotted(s: seq<Byte>): (r: string)
    requires |s| >= 1
    ensures |r| >= 1
  {
    if |s| == 1 then Decimal(s[0]) else Decimal(s[0]) + "." + Dotted(s[1..])
  }

  /** The text `IP.String()` gives a four-byte address, such as "10.0.0.1". */
  function Format(a: Addr): string
  {
    Dotted(a)
  }

  /** The position of the first dot of a text, or its length if it has none. */
  function FirstDot(s: string): (i: nat)
    ensures i <= |s|
  {
    if s == [] || s[0] == '.' then 0 else 1 + FirstDot(s[1..])
  }

  lemma {:induction false} FirstDotAfter(x: string, u: string)
    requires '.' !in x
    ensures FirstDot(x + "." + u) == |x|
  {
    if x != [] {
      assert (x + "." + u)[1..] == x[1..] + "." + u;
      FirstDotAfter(x[1..], u);
    }
  }

  /** Text before the first dot and after it determine each other. */
  lemma SplitAtFirstDot(x: string, u: string, y: string, v: string)
    requires '.' !in x && '.' !in y
    requires x + "." + u == y + "." + v
    ensures x == y && u == v
  {
    var l := x + "." + u;
    FirstDotAfter(x, u);
    FirstDotAfter(y, v);
    assert x == l[..|x|];
    assert y == (y + "." + v)[..|y|];
    assert u == l[|x| + 1..];
    assert v == (y + "." + v)[|y| + 1..];
  }

  lemma {:induction false} DottedInjective(a: seq<Byte>, b: seq<Byte>)
    requires |a| == |b| >= 1 && Dotted(a) == Dotted(b)
    ensures a == b
    decreases |a|
  {
    if |a| == 1 {
      DecimalInjective(a[0], b[0]);
      assert a == [a[0]] && b == [b[0]];
    } else {
      SplitAtFirstDot(Decimal(a[0]), Dotted(a[1..]), Decimal(b[0]), Dotted(b[1..]));
      DecimalInjective(a[0], b[0]);
      DottedInjective(a[1..], b[1..]);
      assert a == [a[0]] + a[1..] && b == [b[0]] + b[1..];
    }
  }

  /** Different addresses have different texts, so a claim name
      identifies one address. */
  lemma FormatInjective(a: Addr, b: Addr)
    requires Format(a) == Format(b)
    ensures a == b
  {
    DottedInjective(a, b);
  }

  // ---------------------------------------------------------------------
  // CIDR segments and the network mask
  // ---------------------------------------------------------------------

  /** What parsing a segment's text yields: an IPv4 CIDR (address and
      prefix length), a CIDR of the other family, or a parse error. */
  datatype ParsedCidr = V4(base: Addr, prefixLen: PrefixLen) | V6 | Invalid

  /** `v` with its `h` lowest bits cleared: what applying the mask does. */
  function Masked(v: nat, h: nat): nat
  {
    if h == 0 then v else 2 * Masked(v / 2, h - 1)
  }

  lemma {:induction false} MaskedBounds(v: nat, h: nat)
    ensures Masked(v, h) <= v < Masked(v, h) + Pow2(h)
  {
    if h > 0 {
      MaskedBounds(v / 2, h - 1);
    }
  }

  /** Every value in the block starting at a masked value masks to it. */
  lemma {:induction false} MaskedUnique(x: nat, y: nat, h: nat)
    requires Masked(y, h) <= x < Masked(y, h) + Pow2(h)
    ensures Masked(x, h) == Masked(y, h)
  {
    if h > 0 {
      MaskedUnique(x / 2, y / 2, h - 1);
    }
  }

  /** The block a masked value starts does not run past the top. */
  lemma {:induction false} MaskedFits(v: nat, h: nat, m: nat)
    requires h <= m && v < Pow2(m)
    ensures Masked(v, h) + Pow2(h) <= Pow2(m)
  {
    if h > 0 {
      MaskedFits(v / 2, h - 1, m - 1);
    }
  }

  lemma SpaceIsPow2()
    ensures Pow2(32) == Space
  {
    assert Pow2(8) == 256;
    assert Pow2(16) == 256 * 256 by {
      Pow2Add(8, 8);
    }
    Pow2Add(16, 16);
  }

  lemma {:induction false} Pow2Add(a: nat, b: nat)
    ensures Pow2(a) * Pow2(b) == Pow2(a + b)
  {
    if a > 0 {
      Pow2Add(a - 1, b);
    }
  }

  /** Powers of two grow strictly. */
  lemma {:induction false} Pow2Below(a: nat, b: nat)
    requires a < b
    ensures Pow2(a) < Pow2(b)
    decreases b
  {
    if a < b - 1 {
      Pow2Below(a, b - 1);
    }
  }

  function HostBits(p: PrefixLen): nat
  {
    32 - p
  }

  /** The number of addresses a prefix length covers. */
  function BlockSize(p: PrefixLen): nat
  {
    Pow2(HostBits(p))
  }

  /** The value of the masked network address of an IPv4 segment. */
  function Network(base: Addr, p: PrefixLen): nat
  {
    Masked(ValueOf(base), HostBits(p))
  }

  /** `ipnet.Contains`: the address masks to the network address. */
  predicate InSubnet(base: Addr, p: PrefixLen, a: Addr)
  {
    Masked(ValueOf(a), HostBits(p)) == Network(base, p)
  }

  /** The masked network address of a segment: the first address a scan
      visits. */
  function NetworkAddr(base: Addr, p: PrefixLen): Addr
  {
    NetworkFits(base, p);
    FromValue(Network(base, p))
  }

  /** The last address of a segment (its broadcast address when p < 31). */
  function LastAddr(base: Addr, p: PrefixLen): Addr
  {
    NetworkFits(base, p);
    FromValue(Network(base, p) + BlockSize(p) - 1)
  }

  /** The segment lies inside the address space. */
  lemma NetworkFits(base: Addr, p: PrefixLen)
    ensures Network(base, p) + BlockSize(p) <= Space
  {
    ValueBound(base);
    assert Pow256(4) == Space;
    SpaceIsPow2();
    MaskedFits(ValueOf(base), HostBits(p), 32);
  }

  /** Membership of the segment is the numeric range starting at the
      network address and holding BlockSize(p) addresses. */
  lemma SubnetRange(base: Addr, p: PrefixLen, a: Addr)
    ensures InSubnet(base, p, a) <==>
            Network(base, p) <= ValueOf(a) < Network(base, p) + BlockSize(p)
  {
    MaskedBounds(ValueOf(a), HostBits(p));
    if Network(base, p) <= ValueOf(a) < Network(base, p) + BlockSize(p) {
      MaskedUnique(ValueOf(a), ValueOf(base), HostBits(p));
    }
  }

  // ---------------------------------------------------------------------
  // Enumerating a segment
  // ---------------------------------------------------------------------

  /** The `count` addresses starting at value `start`, in ascending order. */
  function Walk(start: nat, count: nat): (r: seq<Addr>)
    requires start + count <= Space
    ensures |r| == count
  {
    if count == 0 then [] else Walk(start, count - 1) + [FromValue(start + count - 1)]
  }

  /** The i-th address of a walk is the one of value start + i. */
  lemma {:induction false} WalkAt(start: nat, count: nat)
    requires start + count <= Space
    ensures forall i :: 0 <= i < count ==> Walk(start, count)[i] == FromValue(start + i)
  {
    if count > 0 {
      WalkAt(start, count - 1);
    }
  }

  /** The addresses of `walk` whose text is not excluded, in order. */
  function Kept(walk: seq<Addr>, excluded: set<string>): (r: seq<Addr>)
    ensures |r| <= |walk|
  {
    if walk == [] then []
    else
      var last := walk[|walk| - 1];
      Kept(walk[..|walk| - 1], excluded) + (if Format(last) in excluded then [] else [last])
  }

  /** Filtering keeps an address exactly when it is walked and its text is
      not excluded. */
  lemma {:induction false} KeptMembers(walk: seq<Addr>, excluded: set<string>)
    ensures forall a :: a in Kept(walk, excluded) <==> a in walk && Format(a) !in excluded
    decreases |walk|
  {
    if walk != [] {
      var init := walk[..|walk| - 1];
      KeptMembers(init, excluded);
      assert walk == init + [walk[|walk| - 1]];
    }
  }

  function Formats(s: seq<Addr>): (r: seq<string>)
    ensures |r| == |s|
  {
    if s == [] then [] else Formats(s[..|s| - 1]) + [Format(s[|s| - 1])]
  }

  lemma {:induction false} FormatsAt(s: seq<Addr>)
    ensures forall i :: 0 <= i < |s| ==> Formats(s)[i] == Format(s[i])
    decreases |s|
  {
    if s != [] {
      FormatsAt(s[..|s| - 1]);
    }
  }

  lemma FormatsNonEmpty(s: seq<Addr>)
    ensures forall t :: t in Formats(s) ==> t != ""
  {
    FormatsAt(s);
    forall t | t in Formats(s)
      ensures t != ""
    {
      var i :| 0 <= i < |s| && Formats(s)[i] == t;
      assert |Format(s[i])| >= 1;
    }
  }

  predicate Ascending(s: seq<Addr>)
  {
    forall i, j :: 0 <= i < j < |s| ==> ValueOf(s[i]) < ValueOf(s[j])
  }

  lemma {:induction false} KeptAscending(walk: seq<Addr>, excluded: set<string>)
    requires Ascending(walk)
    ensures Ascending(Kept(walk, excluded))
    decreases |walk|
  {
    if walk != [] {
      var n := |walk| - 1;
      var init := walk[..n];
      assert Ascending(init);
      KeptAscending(init, excluded);
      var k := Kept(init, excluded);
      KeptBelow(init, excluded, ValueOf(walk[n]));
      if Format(walk[n]) in excluded {
        assert Kept(walk, excluded) == k + [] == k;
      } else {
        assert Kept(walk, excluded) == k + [walk[n]];
        AscendingSnoc(k, walk[n]);
      }
    }
  }

  /** Filtering keeps every address below a bound below it. */
  lemma KeptBelow(walk: seq<Addr>, excluded: set<string>, v: nat)
    requires forall i :: 0 <= i < |walk| ==> ValueOf(walk[i]) < v
    ensures forall i :: 0 <= i < |Kept(walk, excluded)| ==> ValueOf(Kept(walk, excluded)[i]) < v
  {
    KeptMembers(walk, excluded);
    var k := Kept(walk, excluded);
    forall i | 0 <= i < |k|
      ensures ValueOf(k[i]) < v
    {
      assert k[i] in walk;
    }
  }

  /** An address above all of an ascending list extends it ascending. */
  lemma AscendingSnoc(k: seq<Addr>, a: Addr)
    requires Ascending(k)
    requires forall i :: 0 <= i < |k| ==> ValueOf(k[i]) < ValueOf(a)
    ensures Ascending(k + [a])
  {
    var r := k + [a];
    forall i, j | 0 <= i < j < |r|
      ensures ValueOf(r[i]) < ValueOf(r[j])
    {
      assert r[i] == k[i];
      if j < |k| {
        assert r[j] == k[j];
      }
    }
  }

  lemma AscendingDistinctTexts(s: seq<Addr>)
    requires Ascending(s)
    ensures forall i, j :: 0 <= i < j < |s| ==> Formats(s)[i] != Formats(s)[j]
  {
    FormatsAt(s);
    forall i, j | 0 <= i < j < |s|
      ensures Formats(s)[i] != Formats(s)[j]
    {
      if Format(s[i]) == Format(s[j]) {
        FormatInjective(s[i], s[j]);
      }
    }
  }

  /** The addresses of an IPv4 segment that a scan from the network address
      offers, in order: all of the segment except the excluded texts. */
  function SegmentAddrs(base: Addr, p: PrefixLen, excluded: set<string>): seq<Addr>
  {
    Kept(SegmentWalk(base, p), excluded)
  }

  /** Every address of a segment, from the network address up. */
  function SegmentWalk(base: Addr, p: PrefixLen): seq<Addr>
  {
    NetworkFits(base, p);
    Walk(Network(base, p), BlockSize(p))
  }

  /** The candidate texts of a segment: the specification of the scan in
      `getAvailableIPs`. */
  function SegmentCandidates(base: Addr, p: PrefixLen, excluded: set<string>): seq<string>
  {
    Formats(SegmentAddrs(base, p, excluded))
  }

  /** A full walk from the network address visits exactly the segment. */
  lemma WalkIsSegment(base: Addr, p: PrefixLen, a: Addr)
    ensures a in SegmentWalk(base, p) <==> InSubnet(base, p, a)
  {
    NetworkFits(base, p);
    var start, size := Network(base, p), BlockSize(p);
    var walk := Walk(start, size);
    WalkAt(start, size);
    SubnetRange(base, p, a);
    FromValueOf(a);
    if InSubnet(base, p, a) {
      assert walk[ValueOf(a) - start] == a;
    }
    if a in walk {
      var i :| 0 <= i < size && walk[i] == a;
    }
  }

  /** An address is kept by the scan exactly when it is in the segment and
      its text is not excluded. */
  lemma SegmentAddrsExact(base: Addr, p: PrefixLen, excluded: set<string>, a: Addr)
    ensures a in SegmentAddrs(base, p, excluded) <==> InSubnet(base, p, a) && Format(a) !in excluded
  {
    WalkIsSegment(base, p, a);
    KeptMembers(SegmentWalk(base, p), excluded);
  }

  /** The text of an address is among the candidates exactly when the
      address is kept. */
  lemma FormatsMember(s: seq<Addr>, a: Addr)
    ensures Format(a) in Formats(s) <==> a in s
  {
    FormatsAt(s);
    if a in s {
      var i :| 0 <= i < |s| && s[i] == a;
      assert Formats(s)[i] == Format(a);
    }
    if Format(a) in Formats(s) {
      var i :| 0 <= i < |s| && Formats(s)[i] == Format(a);
      FormatInjective(s[i], a);
    }
  }

  lemma SegmentCandidatesMembers(base: Addr, p: PrefixLen, excluded: set<string>)
    ensures forall a: Addr :: Format(a) in SegmentCandidates(base, p, excluded) <==>
              InSubnet(base, p, a) && Format(a) !in excluded
  {
    forall a: Addr
      ensures Format(a) in SegmentCandidates(base, p, excluded) <==>
              InSubnet(base, p, a) && Format(a) !in excluded
    {
      SegmentAddrsExact(base, p, excluded, a);
      FormatsMember(SegmentAddrs(base, p, excluded), a);
    }
  }

  lemma WalkAscending(start: nat, count: nat)
    requires start + count <= Space
    ensures Ascending(Walk(start, count))
  {
    WalkAt(start, count);
    var walk := Walk(start, count);
    forall i, j | 0 <= i < j < count
      ensures ValueOf(walk[i]) < ValueOf(walk[j])
    {
      assert walk[i] == FromValue(start + i) && walk[j] == FromValue(start + j);
    }
  }

  lemma SegmentAddrsAscending(base: Addr, p: PrefixLen, excluded: set<string>)
    ensures Ascending(SegmentAddrs(base, p, excluded))
  {
    NetworkFits(base, p);
    WalkAscending(Network(base, p), BlockSize(p));
    KeptAscending(SegmentWalk(base, p), excluded);
  }

  /** No text of a filtered walk is excluded. */
  lemma KeptTextsAvoid(walk: seq<Addr>, excluded: set<string>)
    ensures forall t :: t in Formats(Kept(walk, excluded)) ==> t !in excluded
  {
    var kept := Kept(walk, excluded);
    FormatsAt(kept);
    KeptMembers(walk, excluded);
    forall t | t in Formats(kept)
      ensures t !in excluded
    {
      var i :| 0 <= i < |kept| && Formats(kept)[i] == t;
      assert kept[i] in kept;
    }
  }

  /** The scan offers exactly the addresses of the segment whose text is
      not excluded, in ascending order, each once; the network address
      and the last address of the segment are not set apart. */
  lemma SegmentCandidatesExact(base: Addr, p: PrefixLen, excluded: set<string>)
    ensures forall a: Addr :: a in SegmentAddrs(base, p, excluded) <==>
              InSubnet(base, p, a) && Format(a) !in excluded
    ensures forall a: Addr :: Format(a) in SegmentCandidates(base, p, excluded) <==>
              InSubnet(base, p, a) && Format(a) !in excluded
    ensures Ascending(SegmentAddrs(base, p, excluded))
    ensures forall i, j :: 0 <= i < j < |SegmentCandidates(base, p, excluded)| ==>
              SegmentCandidates(base, p, excluded)[i] != SegmentCandidates(base, p, excluded)[j]
    ensures InSubnet(base, p, NetworkAddr(base, p)) && InSubnet(base, p, LastAddr(base, p))
  {
    forall a: Addr
      ensures a in SegmentAddrs(base, p, excluded) <==> InSubnet(base, p, a) && Format(a) !in excluded
    {
      SegmentAddrsExact(base, p, excluded, a);
    }
    SegmentCandidatesMembers(base, p, excluded);
    SegmentAddrsAscending(base, p, excluded);
    AscendingDistinctTexts(SegmentAddrs(base, p, excluded));
    NetworkFits(base, p);
    SubnetRange(base, p, NetworkAddr(base, p));
    SubnetRange(base, p, LastAddr(base, p));
  }

  /** A /32 segment is the one address. */
  lemma SingleAddressSegment(base: Addr, excluded: set<string>)
    ensures SegmentCandidates(base, 32, excluded) ==
            if Format(base) in excluded then [] else [Format(base)]
  {
    NetworkFits(base, 32);
    FromValueOf(base);
    assert Network(base, 32) == ValueOf(base);
    assert BlockSize(32) == 1;
    var walk := SegmentWalk(base, 32);
    assert walk == Walk(ValueOf(base), 1) == [base];
    assert walk[..0] == [];
  }

  /** An address of value Network + n, for n below the segment's size, is
      in the segment. */
  lemma SegmentAt(base: Addr, p: PrefixLen, n: nat, a: Addr)
    requires n < BlockSize(p) && ValueOf(a) == Network(base, p) + n
    ensures InSubnet(base, p, a)
  {
    SubnetRange(base, p, a);
  }

  /** Stepping an address below the top with `incrementIP` gives the next one. */
  lemma IncrementedNext(a: Addr)
    requires ValueOf(a) + 1 < Space
    ensures |Incremented(a)| == 4 && ValueOf(Incremented(a)) == ValueOf(a) + 1
  {
    IncrementedAddr(a);
  }

  lemma KeptSnoc(walk: seq<Addr>, a: Addr, excluded: set<string>)
    ensures Kept(walk + [a], excluded) == Kept(walk, excluded) + (if Format(a) in excluded then [] else [a])
  {
    assert (walk + [a])[..|walk|] == walk;
  }

  lemma FormatsSnoc(s: seq<Addr>, a: Addr)
    ensures Formats(s + [a]) == Formats(s) + [Format(a)]
  {
    assert (s + [a])[..|s|] == s;
  }

  /** Extending a walk by one address, the address `a` of value
      start + n, extends its candidate texts by the text of `a`, unless it
      is excluded. */
  lemma CandidatesStep(start: nat, n: nat, excluded: set<string>, a: Addr)
    requires start + n < Space && ValueOf(a) == start + n
    ensures Formats(Kept(Walk(start, n + 1), excluded)) ==
              Formats(Kept(Walk(start, n), excluded)) + (if Format(a) in excluded then [] else [Format(a)])
  {
    FromValueOf(a);
    var walk := Walk(start, n);
    assert Walk(start, n + 1) == walk + [a];
    KeptSnoc(walk, a, excluded);
    if Format(a) !in excluded {
      FormatsSnoc(Kept(walk, excluded), a);
    } else {
      assert Kept(walk, excluded) + [] == Kept(walk, excluded);
    }
  }

  // ---------------------------------------------------------------------
  // The loop guard as written
  // ---------------------------------------------------------------------

  /** Whether the guard `ipnet.Contains(ip)` of the scan in `getAvailableIPs`,
      stepped with `incrementIP`, turns false within `fuel` evaluations. */
  function GuardFailsWithin(base: Addr, p: PrefixLen, a: Addr, fuel: nat): bool
    decreases fuel
  {
    IncrementedAddr(a);
    fuel > 0 && (!InSubnet(base, p, a) || GuardFailsWithin(base, p, Incremented(a), fuel - 1))
  }

  /** With prefix length 0 every address is in the segment, so the guard as
      written never fails: the scan wraps round 255.255.255.255 to 0.0.0.0
      and never ends. */
  lemma {:induction false} SlashZeroNeverExits(base: Addr, a: Addr, fuel: nat)
    ensures !GuardFailsWithin(base, 0, a, fuel)
    decreases fuel
  {
    SubnetRange(base, 0, a);
    ValueBound(a);
    ValueBound(base);
    assert Pow256(4) == Space;
    SpaceIsPow2();
    MaskedFits(ValueOf(base), 32, 32);
    IncrementedAddr(a);
    if fuel > 0 {
      SlashZeroNeverExits(base, Incremented(a), fuel - 1);
    }
  }

  /** With a prefix length of at least 1, the address after the last one of
      the segment is outside it, so there the guard as written ends the scan
      after exactly BlockSize(p) addresses; with prefix length 0 it does not. */
  lemma GuardAfterLastAddress(base: Addr, p: PrefixLen)
    ensures var after := Incremented(LastAddr(base, p));
            |after| == 4 && (InSubnet(base, p, after) <==> p == 0)
  {
    NetworkFits(base, p);
    BlockSizeRange(p);
    var start, size := Network(base, p), BlockSize(p);
    var last := LastAddr(base, p);
    assert ValueOf(last) == start + size - 1;
    IncrementedAddr(last);
    var after: Addr := Incremented(last);
    assert ValueOf(after) == (start + size) % Space;
    SubnetRange(base, p, after);
    if p == 0 {
      assert start == 0 && ValueOf(after) == 0;
    } else if start + size < Space {
      assert ValueOf(after) == start + size;
    } else {
      assert ValueOf(after) == 0 && start > 0;
    }
  }

  /** A prefix length covers from 1 address up to the whole space, and the
      whole space only at length 0. */
  lemma BlockSizeRange(p: PrefixLen)
    ensures 1 <= BlockSize(p) <= Space
    ensures BlockSize(p) == Space <==> p == 0
  {
    SpaceIsPow2();
    if p > 0 {
      Pow2Below(HostBits(p), 32);
    }
  }
}
