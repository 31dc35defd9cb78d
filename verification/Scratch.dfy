/** The scratch arena of a worker: allocation by moving a top, committing pages ahead of it, and trimming them. */
module Scratch {

  // ---- Rounding with masks -----------------------------------------------------------------

  function Pow2(k: nat): (p: nat)
    ensures p > 0
  {
    if k == 0 then 1 else 2 * Pow2(k - 1)
  }

  /** Bitwise conjunction. */
  function And(a: nat, b: nat): nat {
    if a == 0 then 0 else (a % 2) * (b % 2) + 2 * And(a / 2, b / 2)
  }

  /** The complement of a number below 2^width. */
  function Complement(a: nat, width: nat): nat
    requires a < Pow2(width)
  {
    Pow2(width) - 1 - a
  }

  lemma {:induction false} Pow2Grows(k: nat, width: nat)
    requires k <= width
    ensures Pow2(k) <= Pow2(width)
    decreases width
  {
    if k < width { Pow2Grows(k, width - 1); }
  }

  lemma ComplementOfMask(k: nat, width: nat)
    requires 0 < k <= width
    ensures Pow2(k) <= Pow2(width) && Pow2(k - 1) <= Pow2(width - 1)
    ensures var c := Complement(Pow2(k) - 1, width);
            c % 2 == 0 && c / 2 == Complement(Pow2(k - 1) - 1, width - 1)
  {
    Pow2Grows(k, width);
    Pow2Grows(k - 1, width - 1);
  }

  lemma {:induction false} AndAll(n: nat, width: nat)
    requires n < Pow2(width)
    ensures And(n, Pow2(width) - 1) == n
    decreases n
  {
    if n > 0 {
      assert width > 0;
      AndAll(n / 2, width - 1);
      assert (Pow2(width) - 1) % 2 == 1 && (Pow2(width) - 1) / 2 == Pow2(width - 1) - 1;
    }
  }

  /** Clearing the low bits with the complement of a mask drops the remainder. */
  lemma {:induction false} AndMask(n: nat, k: nat, width: nat)
    requires n < Pow2(width) && k <= width
    ensures Pow2(k) <= Pow2(width) && And(n, Complement(Pow2(k) - 1, width)) == n - n % Pow2(k)
    decreases k
  {
    Pow2Grows(k, width);
    if k == 0 {
      AndAll(n, width);
    } else {
      ComplementOfMask(k, width);
      AndMask(n / 2, k - 1, width - 1);
      HalfRemainder(n, Pow2(k - 1));
      AndEven(n, Complement(Pow2(k) - 1, width));
    }
  }

  lemma AndEven(a: nat, b: nat)
    requires b % 2 == 0
    ensures And(a, b) == 2 * And(a / 2, b / 2)
  {
    if a > 0 { assert (a % 2) * (b % 2) == 0; }
  }

  lemma HalfRemainder(n: nat, p: nat)
    requires p > 0
    ensures 2 * (n / 2 - (n / 2) % p) == n - n % (2 * p)
  {
    var q, r := (n / 2) / p, (n / 2) % p;
    assert n / 2 == q * p + r;
    assert n == q * (2 * p) + (2 * r + n % 2);
    DivisionIsUnique(n, 2 * p, q, 2 * r + n % 2);
  }

  lemma DivisionIsUnique(n: nat, d: nat, q: nat, r: nat)
    requires n == q * d + r && r < d
    ensures n % d == r
  {
    if n / d < q { TimesGrows(n / d + 1, q, d); }
    if n / d > q { TimesGrows(q + 1, n / d, d); }
  }

  lemma TimesGrows(a: nat, b: nat, d: nat)
    requires a <= b
    ensures a * d <= b * d
  {}

  const WIDTH: nat := 64

  /** Addresses and sizes are words. */
  function Word(): nat { Pow2(WIDTH) }

  /** (n + p - 1) & ~(p - 1) on words, for p = 2^k. */
  function RoundWithMask(n: nat, k: nat): nat
    requires k <= WIDTH
  {
    Pow2Grows(k, WIDTH);
    And((n + Pow2(k) - 1) % Word(), Complement(Pow2(k) - 1, WIDTH))
  }

  predicate IsMultiple(n: nat, p: nat)
    requires p > 0
  {
    n % p == 0
  }

  /** `r` is the least multiple of `p` that is not below `n`. */
  predicate RoundsUp(r: nat, n: nat, p: nat)
    requires p > 0
  {
    IsMultiple(r, p) && n <= r < n + p
  }

  /** Without overflow, rounding with the mask is rounding up. */
  lemma MaskRoundsUp(n: nat, k: nat)
    requires k <= WIDTH && n + Pow2(k) - 1 < Word()
    ensures RoundsUp(RoundWithMask(n, k), n, Pow2(k))
  {
    hide Pow2, And, RoundsUp, Complement;
    var p, m := Pow2(k), n + Pow2(k) - 1;
    AndMask(m, k, WIDTH);
    Small(m, Word());
    DropRemainder(m, n, p);
  }

  lemma Small(m: nat, w: nat)
    requires m < w
    ensures m % w == m
  {}

  lemma DropRemainder(m: nat, n: nat, p: nat)
    requires p > 0 && m == n + p - 1
    ensures m % p <= m && RoundsUp(m - m % p, n, p)
  {
    DivisionIsUnique(m - m % p, p, m / p, 0);
  }

  /** With overflow nothing is left: exactly the sizes from 2^64 - 15 on are rounded to less than they are. */
  lemma RoundingFits(size: nat)
    requires size < Word()
    ensures IsMultiple(RoundWithMask(size, 4), 16)
    ensures if size + 15 < Word() then RoundsUp(RoundWithMask(size, 4), size, 16) else RoundWithMask(size, 4) == 0
    ensures RoundWithMask(size, 4) >= size <==> size + 15 < Word()
  {
    Sixteen();
    LargeWord();
    hide Pow2, And, Complement;
    if size + 15 < Word() {
      MaskRoundsUp(size, 4);
    } else {
      var m := size + 15 - Word();
      DivisionIsUnique(size + 15, Word(), 1, m);
      AndMask(m, 4, WIDTH);
      Small(m, 16);
    }
  }

  lemma Sixteen()
    ensures Pow2(4) == 16
  {}

  lemma LargeWord()
    ensures Word() >= 16
  {
    Sixteen();
    Pow2Grows(4, WIDTH);
  }

  /** The least size that is rounded to less, and the one before it. */
  lemma LeastFailingSize()
    ensures Word() >= 16 && RoundWithMask(Word() - 15, 4) == 0 && RoundWithMask(Word() - 16, 4) == Word() - 16
  {
    LargeWord();
    RoundingFits(Word() - 15);
    RoundingFits(Word() - 16);
    WordIsMultiple(4, WIDTH);
    Sixteen();
    hide Pow2, And, RoundWithMask;
    NextMultiple(RoundWithMask(Word() - 16, 4), Word(), 16);
  }

  /** Rounding up does not pass a multiple. */
  lemma RoundsUpBelow(r: nat, n: nat, p: nat, bound: nat)
    requires p > 0 && RoundsUp(r, n, p) && n <= bound && IsMultiple(bound, p)
    ensures r <= bound
  {
    if r > bound { NextMultiple(bound, r, p); }
  }

  // ---- The arena ----------------------------------------------------------------------------------

  predicate Between(x: nat, from: nat, to: nat) { from <= x < to }

  ghost function Region(from: nat, to: nat): set<nat> { set x | from <= x < to && Between(x, from, to) }

  /** Where the committed part should end for a given top: a band above it, whole pages, within the reservation. The
      addition may overflow. */
  function KeepEnd(pos: nat, band: nat, reserveEnd: nat, k: nat): nat
    requires k <= WIDTH
  {
    var sum := (pos + band) % Word();
    var end := if sum < pos || sum > reserveEnd then reserveEnd else sum;
    var rounded := RoundWithMask(end, k);
    if rounded > reserveEnd then reserveEnd else rounded
  }

  function Min(a: nat, b: nat): nat { if a <= b then a else b }

  /** The overflow check is exact, and a reservation of whole pages ends no rounding too early. */
  lemma KeepEndRounds(pos: nat, band: nat, reserveEnd: nat, k: nat)
    requires k <= WIDTH && pos <= reserveEnd < Word() && band < Word() && IsMultiple(reserveEnd, Pow2(k))
    ensures var r := KeepEnd(pos, band, reserveEnd, k);
            RoundsUp(r, Min(pos + band, reserveEnd), Pow2(k)) && r <= reserveEnd
  {
    var p, end := Pow2(k), Min(pos + band, reserveEnd);
    Pow2Grows(k, WIDTH);
    Wraps(pos, band, Word());
    RoomAtTheEnd(reserveEnd, p, k);
    MaskRoundsUp(end, k);
    RoundsUpBelow(RoundWithMask(end, k), end, p, reserveEnd);
  }

  lemma Wraps(pos: nat, band: nat, w: nat)
    requires pos < w && band < w
    ensures (pos + band) % w == if pos + band < w then pos + band else pos + band - w
  {
    DivisionIsUnique(pos + band, w, if pos + band < w then 0 else 1, if pos + band < w then pos + band else pos + band - w);
  }

  /** The last page starts at least a page before the end of the address space. */
  lemma RoomAtTheEnd(end: nat, p: nat, k: nat)
    requires k <= WIDTH && p == Pow2(k) && end < Word() && IsMultiple(end, p)
    ensures end + p <= Word()
  {
    hide Pow2;
    WordIsMultiple(k, WIDTH);
    NextMultiple(end, Word(), p);
  }

  lemma NextMultiple(m: nat, n: nat, p: nat)
    requires p > 0 && IsMultiple(m, p) && IsMultiple(n, p) && m < n
    ensures m + p <= n
  {
    var a, b := m / p, n / p;
    assert m == a * p && n == b * p;
    if a < b { TimesGrows(a + 1, b, p); } else { TimesGrows(b, a, p); }
  }

  lemma {:induction false} WordIsMultiple(k: nat, width: nat)
    requires k <= width
    ensures IsMultiple(Pow2(width), Pow2(k))
    decreases width
  {
    hide IsMultiple;
    if k == width {
      OwnMultiple(Pow2(k));
    } else {
      WordIsMultiple(k, width - 1);
      TwiceMultiple(Pow2(width - 1), Pow2(k));
    }
  }

  lemma OwnMultiple(p: nat)
    requires p > 0
    ensures IsMultiple(p, p)
  {
    DivisionIsUnique(p, p, 1, 0);
  }

  lemma TwiceMultiple(n: nat, p: nat)
    requires p > 0 && IsMultiple(n, p)
    ensures IsMultiple(2 * n, p)
  {
    var q := n / p;
    assert n == q * p;
    DivisionIsUnique(2 * n, p, 2 * q, 0);
  }

  class Arena {
    var base: nat
    var top: nat
    var committedEnd: nat
    var reserveEnd: nat
    const pageBits: nat
    /** The addresses that are committed. */
    ghost var committed: set<nat>

    /** A disabled arena has all its addresses at 0. */
    ghost predicate Valid()
      reads this
    {
      && 4 <= pageBits <= WIDTH
      && base <= top <= committedEnd <= reserveEnd < Word()
      && IsMultiple(base, Pow2(pageBits)) && IsMultiple(committedEnd, Pow2(pageBits)) && IsMultiple(reserveEnd, Pow2(pageBits))
      && IsMultiple(top, 16)
      && committed == Region(base, committedEnd)
    }

    /** A reservation of `reserve` bytes at `start`, both whole pages, of which nothing is committed. */
    constructor (k: nat, start: nat, reserve: nat)
      requires 4 <= k <= WIDTH && start + reserve < Word()
      requires IsMultiple(start, Pow2(k)) && IsMultiple(start + reserve, Pow2(k))
      ensures Valid() && pageBits == k && base == top == committedEnd == start && reserveEnd == start + reserve
    {
      pageBits, base, top, committedEnd, reserveEnd, committed := k, start, start, start, start + reserve, {};
      PageIsAligned(start, k);
      NothingInRegion(start);
    }

    /** lace_scratch_alloc: bytes rounded up to 16 from the top, or null when the process aborts. A size within 15 bytes of
        the largest word wraps around when it is rounded, and nothing is allocated for it. */
    method Alloc(size: nat, band: nat, commitSucceeds: bool) returns (r: Pointer)
      requires Valid() && size < Word() && top + RoundWithMask(size, 4) < Word() && band < Word()
      modifies this
      ensures r.Address? ==> Valid() && r.address == old(top) <= top
      ensures r.Address? ==> (top - r.address >= size <==> size + 15 < Word())
      ensures r.Address? ==> if size + 15 < Word() then RoundsUp(top - r.address, size, 16) else top == r.address
      ensures r.Address? ==> IsMultiple(r.address, 16) && Region(r.address, top) <= committed
      ensures r.Address? ==> base == old(base) && reserveEnd == old(reserveEnd) && committedEnd >= old(committedEnd)
      ensures r.Null? ==> old(top) + RoundWithMask(size, 4) > old(reserveEnd) || !commitSucceeds
      ensures old(top) + RoundWithMask(size, 4) <= old(committedEnd) ==>
                r == Address(old(top)) && committedEnd == old(committedEnd) && committed == old(committed)
      ensures old(top) + RoundWithMask(size, 4) > old(committedEnd) && r.Address? ==> committedEnd > old(committedEnd)
    {
      hide Region, And, Pow2;
      var aligned := RoundWithMask(size, 4);
      Sixteen();
      RoundingFits(size);
      var newTop := top + aligned;
      SumIsMultiple(top, aligned, 16);
      if newTop > committedEnd {
        r := Grow(aligned, band, commitSucceeds);
        if r.Address? { RegionInside(r.address, top, base, committedEnd); }
        return;
      }
      r := Address(top);
      top := newTop;
      RegionInside(r.address, top, base, committedEnd);
    }

    /** lace_scratch_grow: commits pages up to a band above the new top, within the reservation. */
    method Grow(aligned: nat, band: nat, commitSucceeds: bool) returns (r: Pointer)
      requires Valid() && top + aligned < Word() && band < Word() && IsMultiple(top + aligned, 16)
      modifies this
      ensures r.Address? <==> (old(top) + aligned <= reserveEnd &&
                               (commitSucceeds ||
                                KeepEnd(old(top) + aligned, band, reserveEnd, pageBits) <= old(committedEnd)))
      ensures base == old(base) && reserveEnd == old(reserveEnd)
      ensures r.Address? ==> Valid() && r.address == old(top) && top == old(top) + aligned
      ensures r.Address? ==> committedEnd >= Min(top + band, reserveEnd)
      ensures r.Address? ==> committedEnd == old(committedEnd) || RoundsUp(committedEnd, Min(top + band, reserveEnd), Pow2(pageBits))
      ensures r.Address? ==> old(committedEnd) <= committedEnd
      ensures r.Address? ==> committedEnd == Max(old(committedEnd), KeepEnd(top, band, reserveEnd, pageBits))
    {
      hide Region, KeepEnd, Pow2, IsMultiple;
      var curTop := top;
      var newTop := curTop + aligned;
      if newTop > reserveEnd { return Null; }
      var commitTo := KeepEnd(newTop, band, reserveEnd, pageBits);
      KeepEndRounds(newTop, band, reserveEnd, pageBits);
      KeepEndIsMultiple(newTop, band, reserveEnd, pageBits);
      if commitTo > committedEnd {
        if !commitSucceeds { return Null; }
        committed := committed + Region(committedEnd, commitTo);
        RegionGrows(base, committedEnd, commitTo);
        committedEnd := commitTo;
      }
      top := newTop;
      return Address(curTop);
    }

    /** lace_scratch_mark and lace_scratch_reset: back to an earlier top. */
    method Reset(mark: nat)
      requires Valid() && base <= mark <= top && IsMultiple(mark, 16)
      modifies `top
      ensures Valid() && top == mark
    {
      top := mark;
    }

    /** lace_scratch_trim: releases whole pages beyond a band above the top, and nothing below. */
    method Trim(band: nat)
      requires Valid() && band < Word()
      modifies this
      ensures Valid() && base == old(base) && top == old(top) && reserveEnd == old(reserveEnd)
      ensures committedEnd == if base == 0 then old(committedEnd) else Min(old(committedEnd), KeepEnd(top, band, reserveEnd, pageBits))
      ensures committed <= old(committed)
      ensures forall x | x in old(committed) && x !in committed :: x >= Min(top + band, reserveEnd)
    {
      hide KeepEnd, Pow2, IsMultiple;
      if base == 0 { return; }
      var keepEnd := KeepEnd(top, band, reserveEnd, pageBits);
      KeepEndRounds(top, band, reserveEnd, pageBits);
      KeepEndIsMultiple(top, band, reserveEnd, pageBits);
      if committedEnd > keepEnd {
        committed := committed - Region(keepEnd, committedEnd);
        RegionShrinks(base, keepEnd, committedEnd);
        committedEnd := keepEnd;
      }
    }
  }

  datatype Pointer = Null | Address(address: nat)

  function Max(a: nat, b: nat): nat { if a >= b then a else b }

  lemma SumIsMultiple(m: nat, n: nat, p: nat)
    requires p > 0 && IsMultiple(m, p) && IsMultiple(n, p)
    ensures IsMultiple(m + n, p)
  {
    var a, b := m / p, n / p;
    assert m == a * p && n == b * p;
    Distribute(a, b, p);
    DivisionIsUnique(m + n, p, a + b, 0);
  }

  lemma Distribute(a: nat, b: nat, p: nat)
    ensures a * p + b * p == (a + b) * p
  {}

  lemma KeepEndIsMultiple(pos: nat, band: nat, reserveEnd: nat, k: nat)
    requires k <= WIDTH && pos <= reserveEnd < Word() && band < Word() && IsMultiple(reserveEnd, Pow2(k))
    ensures IsMultiple(KeepEnd(pos, band, reserveEnd, k), Pow2(k))
  {
    hide KeepEnd;
    KeepEndRounds(pos, band, reserveEnd, k);
  }

  lemma {:induction false} PageIsAligned(n: nat, k: nat)
    requires k >= 4 && IsMultiple(n, Pow2(k))
    ensures IsMultiple(n, 16)
    decreases k
  {
    Sixteen();
    if k > 4 {
      var q := n / Pow2(k);
      assert n == q * Pow2(k);
      Twice(q, Pow2(k - 1));
      DivisionIsUnique(n, Pow2(k - 1), 2 * q, 0);
      PageIsAligned(n, k - 1);
    }
  }

  lemma Twice(q: nat, p: nat)
    ensures q * (2 * p) == (2 * q) * p
  {}

  lemma NothingInRegion(a: nat)
    ensures Region(a, a) == {}
  {}

  lemma RegionGrows(a: nat, b: nat, c: nat)
    requires a <= b <= c
    ensures Region(a, b) + Region(b, c) == Region(a, c)
  {}

  lemma RegionShrinks(a: nat, b: nat, c: nat)
    requires a <= b <= c
    ensures Region(a, c) - Region(b, c) == Region(a, b)
  {}

  lemma RegionInside(a: nat, b: nat, c: nat, d: nat)
    requires c <= a && b <= d
    ensures Region(a, b) <= Region(c, d)
  {}

  /** An allocation that has to commit and a trim directly after it: the trim releases nothing. `grown` is the end of what
      is committed between the two. */
  method GrowThenTrim(arena: Arena, aligned: nat, band: nat, commitSucceeds: bool) returns (r: Pointer, grown: nat)
    requires arena.Valid() && arena.top + aligned < Word() && band < Word() && IsMultiple(arena.top + aligned, 16)
    requires arena.committedEnd < arena.top + aligned
    modifies arena
    ensures r.Address? <==> old(arena.top) + aligned <= old(arena.reserveEnd) && commitSucceeds
    ensures r.Address? ==> arena.Valid() && r.address == old(arena.top) && arena.top == r.address + aligned
    ensures r.Address? ==> arena.committedEnd == grown > old(arena.committedEnd)
    ensures r.Address? ==> arena.committed == Region(arena.base, grown)
  {
    hide KeepEnd, Pow2, Region, IsMultiple;
    if arena.top + aligned <= arena.reserveEnd {
      KeepEndIsAbove(arena.top + aligned, band, arena.reserveEnd, arena.pageBits);
    }
    r := arena.Grow(aligned, band, commitSucceeds);
    grown := arena.committedEnd;
    if r.Address? { arena.Trim(band); }
  }

  lemma KeepEndIsAbove(pos: nat, band: nat, reserveEnd: nat, k: nat)
    requires k <= WIDTH && pos <= reserveEnd < Word() && band < Word() && IsMultiple(reserveEnd, Pow2(k))
    ensures KeepEnd(pos, band, reserveEnd, k) >= pos
  {
    hide KeepEnd;
    KeepEndRounds(pos, band, reserveEnd, k);
  }
}
