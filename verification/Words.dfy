/** Addresses as numbers and as the 64-bit words the page tables hold. */
module Words {
  import opened Basics
  import opened PageTables
  import opened Paging

  const BITS_48: nat := 0x1_0000_0000_0000
  const BITS_47: nat := 0x8000_0000_0000
  const BITS_39: nat := 0x80_0000_0000
  const BITS_30: nat := 0x4000_0000
  const BITS_21: nat := 0x20_0000

  function Digit(n: Slot): bv64 {
    n as bv9 as bv64
  }

  /** A word out of its top 16 bits, the four table indices and its offset in the page. */
  function Assembled(top: bv64, a: bv64, b: bv64, c: bv64, d: bv64, offset: bv64): bv64 {
    (top << 48) | (a << 39) | (b << 30) | (c << 21) | (d << 12) | offset
  }

  /** The low 64 bits of a number. */
  function Word(v: nat): bv64 {
    Assembled((v / BITS_48 % 0x1_0000) as bv16 as bv64, Digit(v / BITS_39 % 512), Digit(v / BITS_30 % 512),
              Digit(v / BITS_21 % 512), Digit(v / PAGE % 512), (v % PAGE) as bv12 as bv64)
  }

  /** The table indices of an address. */
  function Digits(v: nat): Route {
    Route(v / BITS_39 % 512, v / BITS_30 % 512, v / BITS_21 % 512, v / PAGE % 512)
  }

  /** The number a word stands for. */
  function Number(w: bv64): nat {
    ((w >> 48) & 0xffff) as bv16 as nat * BITS_48 + Low(w >> 39) * BITS_39 + Low(w >> 30) * BITS_30 +
    Low(w >> 21) * BITS_21 + Low(w >> 12) * PAGE + (w & 0xfff) as bv12 as nat
  }

  // ----------------------------------------------------------- digits

  lemma SixBits(h: int)
    requires 0 <= h < 64
    ensures (h as bv6) as int == h
  {
  }

  lemma ThreeBits(l: int)
    requires 0 <= l < 8
    ensures (l as bv3) as int == l
  {
  }

  lemma SplitBits(h: bv6, l: bv3)
    ensures (((h as bv9) << 3) | (l as bv9)) as int == h as int * 8 + l as int
  {
  }

  lemma BackBits(b: bv9)
    ensures (b as int) as bv9 == b
  {
  }

  lemma NineBits(n: Slot)
    ensures (n as bv9) as int == n
  {
    var h, l := n / 8, n % 8;
    SixBits(h);
    ThreeBits(l);
    SplitBits(h as bv6, l as bv3);
    BackBits(((h as bv6 as bv9) << 3) | (l as bv3 as bv9));
  }

  lemma WideDigit(b: bv9)
    ensures (b as bv64) & 0x1ff == b as bv64 && ((b as bv64) & 0x1ff) as bv9 == b
  {
  }

  lemma DigitMask(n: Slot)
    ensures Digit(n) & 0x1ff == Digit(n)
  {
    WideDigit(n as bv9);
  }

  lemma DigitRound(n: Slot)
    ensures Digit(n) & 0x1ff == Digit(n) && Low(Digit(n)) == n
  {
    NineBits(n);
    WideDigit(n as bv9);
  }

  lemma LowOf(x: bv64, n: Slot)
    requires x & 0x1ff == Digit(n)
    ensures Low(x) == n
  {
    DigitRound(n);
    SameSlot(x, Digit(n));
  }

  lemma AssembledBits(top: bv64, a: bv64, b: bv64, c: bv64, d: bv64, offset: bv64)
    requires a & 0x1ff == a && b & 0x1ff == b && c & 0x1ff == c && d & 0x1ff == d && offset & 0xfff == offset
    ensures var w := Assembled(top, a, b, c, d, offset);
      && (w >> 39) & 0x1ff == a && (w >> 30) & 0x1ff == b && (w >> 21) & 0x1ff == c && (w >> 12) & 0x1ff == d
  {
  }

  lemma OffsetBits(o: bv12)
    ensures (o as bv64) & 0xfff == o as bv64
  {
  }

  lemma AssembledRoute(w: bv64, top: bv64, a: Slot, b: Slot, c: Slot, d: Slot, offset: bv64)
    requires w == Assembled(top, Digit(a), Digit(b), Digit(c), Digit(d), offset) && offset & 0xfff == offset
    ensures RouteOf(w) == Route(a, b, c, d)
  {
    DigitRound(a);
    DigitRound(b);
    DigitRound(c);
    DigitRound(d);
    AssembledBits(top, Digit(a), Digit(b), Digit(c), Digit(d), offset);
    RouteIs(w, a, b, c, d);
  }

  /** The indices of an address are its digits. */
  lemma RouteOfWord(v: nat)
    ensures RouteOf(Word(v)) == Digits(v)
    ensures RouteOf(Word(v)) == Route(v / 0x80_0000_0000 % 512, v / 0x4000_0000 % 512, v / 0x20_0000 % 512, v / 0x1000 % 512)
  {
    OffsetBits((v % PAGE) as bv12);
    AssembledRoute(Word(v), (v / BITS_48 % 0x1_0000) as bv16 as bv64, v / BITS_39 % 512, v / BITS_30 % 512,
                   v / BITS_21 % 512, v / PAGE % 512, (v % PAGE) as bv12 as bv64);
  }

  lemma RouteIs(w: bv64, a: Slot, b: Slot, c: Slot, d: Slot)
    requires (w >> 39) & 0x1ff == Digit(a) && (w >> 30) & 0x1ff == Digit(b)
    requires (w >> 21) & 0x1ff == Digit(c) && (w >> 12) & 0x1ff == Digit(d)
    ensures RouteOf(w) == Route(a, b, c, d)
  {
    LowOf(w >> 39, a);
    LowOf(w >> 30, b);
    LowOf(w >> 21, c);
    LowOf(w >> 12, d);
  }

  // ----------------------------------------------------------- pages

  /** A page in one of the halves of the canonical address space, where every mapping of the manager is. */
  predicate CanonicalPage(v: nat) {
    v % PAGE == 0 && (v < BITS_47 || TWO64 - BITS_47 <= v < TWO64)
  }

  lemma Split48(v: nat, h: nat, l: nat)
    requires v == h * BITS_48 + l && l < BITS_48
    ensures v % BITS_48 == l
  {
  }

  lemma Split39(v: nat, h: nat, l: nat)
    requires v == h * BITS_39 + l && l < BITS_39
    ensures v / BITS_39 == h
  {
  }

  lemma Split30(v: nat, h: nat, l: nat)
    requires v == h * BITS_30 + l && l < BITS_30
    ensures v / BITS_30 == h && v % BITS_30 == l
  {
  }

  lemma Split21(v: nat, h: nat, l: nat)
    requires v == h * BITS_21 + l && l < BITS_21
    ensures v / BITS_21 == h
  {
  }

  /** Two digits of a number of pages, or of pages of pages. */
  lemma TwoDigits(q: nat)
    ensures q == q / 0x4_0000 * 0x4_0000 + (q / 512 % 512) * 512 + q % 512 && q / 512 == q / 0x4_0000 * 512 + q / 512 % 512
  {
  }

  lemma LowDigits(v: nat)
    requires v % PAGE == 0
    ensures v % BITS_30 == (v / BITS_21 % 512) * BITS_21 + (v / PAGE % 512) * PAGE
  {
    var q := v / PAGE;
    TwoDigits(q);
    Split21(v, q / 512, q % 512 * PAGE);
    Split30(v, q / 0x4_0000, (q / 512 % 512) * BITS_21 + q % 512 * PAGE);
  }

  lemma HighDigits(v: nat)
    ensures v % BITS_48 == (v / BITS_39 % 512) * BITS_39 + (v / BITS_30 % 512) * BITS_30 + v % BITS_30
  {
    var q, r := v / BITS_30, v % BITS_30;
    TwoDigits(q);
    Split39(v, q / 512, q % 512 * BITS_30 + r);
    Split48(v, q / 0x4_0000, (q / 512 % 512) * BITS_39 + q % 512 * BITS_30 + r);
  }

  lemma PageDigits(v: nat)
    requires v % PAGE == 0
    ensures v % BITS_48 == (v / BITS_39 % 512) * BITS_39 + (v / BITS_30 % 512) * BITS_30 +
                           (v / BITS_21 % 512) * BITS_21 + (v / PAGE % 512) * PAGE
  {
    LowDigits(v);
    HighDigits(v);
  }

  lemma LowBitsOf(v: nat)
    requires CanonicalPage(v)
    ensures v % BITS_48 == if v < BITS_47 then v else v - 0xffff * BITS_48
  {
    if v < BITS_47 {
      Split48(v, 0, v);
    } else {
      Split48(v, 0xffff, v - 0xffff * BITS_48);
    }
  }

  lemma SameDigits(v: nat, w: nat)
    requires CanonicalPage(v) && CanonicalPage(w) && Digits(v) == Digits(w)
    ensures v == w
  {
    PageDigits(v);
    PageDigits(w);
    LowBitsOf(v);
    LowBitsOf(w);
  }

  /** Two such pages take different routes. */
  lemma PagesDiffer(v: nat, w: nat)
    requires CanonicalPage(v) && CanonicalPage(w) && SamePage(Word(v), Word(w))
    ensures v == w
  {
    SameRoute(Word(v), Word(w));
    RouteOfWord(v);
    RouteOfWord(w);
    SameDigits(v, w);
  }

  // ----------------------------------------------------------- frames

  /** A frame the tables can hold and report unchanged. */
  predicate LowFrame(f: nat) {
    f % PAGE == 0 && f < BITS_47
  }

  lemma LowDigit(n: Slot)
    requires n < 256
    ensures Digit(n) & 0x1ff == Digit(n) && Digit(n) & 0x100 == 0
  {
  }

  /** No bits but those of a page address below 2^47. */
  predicate LowWordBits(w: bv64) {
    w & 0x0000_ffff_ffff_f000 == w && w & 0xfff == 0 && w & 0xffff_8000_0000_0000 == 0 && (w >> 48) & 0xffff == 0
  }

  predicate LowParts(a: bv64, b: bv64, c: bv64, d: bv64) {
    a & 0x1ff == a && a & 0x100 == 0 && b & 0x1ff == b && c & 0x1ff == c && d & 0x1ff == d
  }

  lemma LowBits(a: bv64, b: bv64, c: bv64, d: bv64)
    requires LowParts(a, b, c, d)
    ensures LowWordBits(Assembled(0, a, b, c, d, 0))
  {
  }

  lemma LowWord(f: nat, a: Slot, b: Slot, c: Slot, d: Slot)
    requires LowFrame(f) && Route(a, b, c, d) == Digits(f)
    ensures a < 256 && Word(f) == Assembled(0, Digit(a), Digit(b), Digit(c), Digit(d), 0)
  {
    assert f / BITS_48 == 0 && f / BITS_39 < 256;
  }

  lemma LowDigitParts(a: Slot, b: Slot, c: Slot, d: Slot)
    requires a < 256
    ensures LowParts(Digit(a), Digit(b), Digit(c), Digit(d))
  {
    LowDigit(a);
    DigitMask(b);
    DigitMask(c);
    DigitMask(d);
  }

  lemma LowFrameBits(f: nat)
    requires LowFrame(f)
    ensures LowWordBits(Word(f))
  {
    var Route(a, b, c, d) := Digits(f);
    LowWord(f, a, b, c, d);
    LowDigitParts(a, b, c, d);
    LowBits(Digit(a), Digit(b), Digit(c), Digit(d));
  }

  lemma NumberOf(w: bv64)
    requires w & 0xfff == 0 && (w >> 48) & 0xffff == 0
    ensures var r := RouteOf(w); Number(w) == r.pml4 * BITS_39 + r.pdpt * BITS_30 + r.pdt * BITS_21 + r.pt * PAGE
  {
  }

  lemma FrameDigits(f: nat, r: Route)
    requires LowFrame(f) && r == Digits(f)
    ensures f == r.pml4 * BITS_39 + r.pdpt * BITS_30 + r.pdt * BITS_21 + r.pt * PAGE
  {
    PageDigits(f);
    Split48(f, 0, f);
  }

  lemma NumberFrom(w: bv64, f: nat, r: Route)
    requires LowWordBits(w) && RouteOf(w) == r && Digits(f) == r && LowFrame(f)
    ensures Number(w) == f
  {
    NumberOf(w);
    FrameDigits(f, r);
  }

  lemma NumberOfWord(f: nat)
    requires LowFrame(f)
    ensures Number(Word(f)) == f
  {
    LowFrameBits(f);
    RouteOfWord(f);
    NumberFrom(Word(f), f, Digits(f));
  }

  /** Such a frame comes back from its word, and from the entry that maps it. */
  lemma FrameRound(f: nat, flags: bv16)
    requires LowFrame(f)
    ensures IsFrame(Word(f)) && Number(Word(f)) == f
    ensures Decode(MapEntry(Word(f), flags)) == MapState(Word(f), ((flags | 1) & 0xfff) as bv64, true)
  {
    LowFrameBits(f);
    MapRoundTrip(Word(f), flags);
    NumberOfWord(f);
  }

  lemma DigitsOfSum(n: nat, a: Slot, b: Slot, c: Slot, d: Slot)
    requires n == a * BITS_39 + b * BITS_30 + c * BITS_21 + d * PAGE
    ensures Digits(n) == Route(a, b, c, d)
  {
    Split39(n, a, b * BITS_30 + c * BITS_21 + d * PAGE);
    Split30(n, a * 512 + b, c * BITS_21 + d * PAGE);
    Split21(n, a * 0x4_0000 + b * 512 + c, d * PAGE);
    assert n / PAGE == a * 0x800_0000 + b * 0x4_0000 + c * 512 + d;
  }

  lemma TargetBits(t: bv64)
    requires t & 0x0000_ffff_ffff_f000 == t
    ensures t & 0xfff == 0 && (t >> 48) & 0xffff == 0
  {
  }

  /** What an entry points to is the page part of its number's word. */
  lemma TargetRound(t: bv64)
    requires IsFrame(t)
    ensures Target(Word(Number(t))) == t
  {
    TargetBits(t);
    NumberOf(t);
    var r := RouteOf(t);
    DigitsOfSum(Number(t), r.pml4, r.pdpt, r.pdt, r.pt);
    RouteOfWord(Number(t));
    SameRoute(Word(Number(t)), t);
  }
}
