/** The pages of a driver block, said by addresses: every page boundary from its start to its end. */
module PageRange {
  import opened DescriptorEngine

  function Plus(start: bv64, d: bv64): bv64 {
    start + d
  }

  function PagesLong(x: bv32): bv64 {
    (x as bv64) << 12
  }

  function PagesIn(d: bv64): bv32 {
    ((d >> 12) & 0xFFFF_FFFF) as bv32
  }

  predicate Aligned(a: bv64) {
    a & 0xFFF == 0
  }

  predicate Within(d: bv64, size: bv32) {
    d < size as bv64
  }

  function Pred(x: bv32): bv32 {
    x - 1
  }

  lemma OddPred(x: bv32)
    requires Odd(x)
    ensures Half(Pred(x)) == Half(x)
  {
  }

  lemma EvenPred(x: bv32)
    requires !Odd(x) && x != 0
    ensures Half(Pred(x)) == Pred(Half(x))
  {
  }

  lemma PredFlips(x: bv32)
    ensures Odd(Pred(x)) == !Odd(x)
  {
  }

  lemma HalfOfEven(x: bv32)
    requires !Odd(x) && x != 0
    ensures Half(x) != 0
  {
  }

  lemma PredSmaller(x: bv32)
    requires x != 0
    ensures Pred(x) < x
  {
  }

  /** The number of the word before. */
  lemma {:induction false} NumberPred(x: bv32)
    requires x != 0
    ensures Number(Pred(x)) + 1 == Number(x)
    decreases x
  {
    hide Half, Odd, Pred, Number;
    NumberIs(x);
    NumberIs(Pred(x));
    PredFlips(x);
    if Odd(x) {
      OddPred(x);
    } else {
      EvenPred(x);
      HalfOfEven(x);
      NumberPred(Half(x));
    }
  }

  lemma OnePageOn(x: bv32)
    requires x != 0
    ensures PagesLong(x) == NextPage(PagesLong(Pred(x)))
  {
  }

  lemma NoPages()
    ensures PagesLong(0) == 0 && Number(0) == 0
  {
  }

  lemma PlusNext(start: bv64, d: bv64)
    ensures Plus(start, NextPage(d)) == NextPage(Plus(start, d)) && Plus(start, 0) == start
  {
  }

  lemma FirstPageAt(start: bv64)
    ensures PageAt(start, 0) == start
  {
  }

  /** Page x of a block lies x times 4096 bytes after its start. */
  lemma {:induction false} PageAtDistance(start: bv64, x: bv32)
    ensures PageAt(start, Number(x)) == Plus(start, PagesLong(x))
    decreases x
  {
    hide Plus, PagesLong, NextPage, Pred, Number;
    NoPages();
    FirstPageAt(start);
    PlusNext(start, PagesLong(Pred(x)));
    if x != 0 {
      PredSmaller(x);
      NumberPred(x);
      PageAtDistance(start, Pred(x));
      OnePageOn(x);
    }
  }

  /** Every number below that of p is the number of a smaller word. */
  lemma {:induction false} WordBelow(p: bv32, k: nat) returns (x: bv32)
    requires k < Number(p)
    ensures Number(x) == k && Number(x) < Number(p)
    decreases p
  {
    hide Number, Pred;
    NoPages();
    PredSmaller(p);
    NumberPred(p);
    if k + 1 == Number(p) {
      x := Pred(p);
    } else {
      x := WordBelow(Pred(p), k);
    }
  }

  lemma Ordered(x: bv32, y: bv32)
    ensures AtMost(x, y) <==> x <= y
  {
  }

  lemma SmallerNumber(x: bv32, y: bv32)
    ensures x < y <==> Number(x) < Number(y)
  {
    hide Number, AtMost;
    if x < y {
      Ordered(x, y);
      NumberOrdered(x, y);
      if Number(x) == Number(y) {
        NumberInjective(x, y);
      }
    } else {
      Ordered(y, x);
      NumberOrdered(y, x);
    }
  }

  lemma PagesWithin(x: bv32, size: bv32)
    requires PageMultiple(size) && x < PageCount(size)
    ensures Within(PagesLong(x), size)
  {
  }

  lemma PagesAligned(x: bv32)
    ensures Aligned(PagesLong(x))
  {
  }

  lemma WholePages(d: bv64, size: bv32)
    requires Aligned(d) && Within(d, size)
    ensures PagesLong(PagesIn(d)) == d
  {
  }

  lemma FewerPages(d: bv64, size: bv32)
    requires PageMultiple(size) && Within(d, size)
    ensures PagesIn(d) < PageCount(size)
  {
  }

  lemma PageAfter(start: bv64, size: bv32, d: bv64)
    requires PageMultiple(size) && Aligned(d) && Within(d, size)
    ensures Page(Plus(start, d)) in BlockPages(start, size)
  {
    hide Aligned, PageMultiple, Within, Plus, PageAt, PagesLong, PageCount, Number, PagesIn;
    var x := PagesIn(d);
    WholePages(d, size);
    FewerPages(d, size);
    SmallerNumber(x, PageCount(size));
    PageAtDistance(start, x);
    assert BlockPages(start, size)[Number(x)] == Page(Plus(start, d));
  }

  lemma DistanceOf(start: bv64, size: bv32, k: nat) returns (d: bv64)
    requires PageMultiple(size) && k < Pages(size)
    ensures Aligned(d) && Within(d, size) && PageAt(start, k) == Plus(start, d)
  {
    hide Aligned, PageMultiple, Within, Plus, PageAt, PagesLong, PageCount, Number;
    var x := WordBelow(PageCount(size), k);
    PageAtDistance(start, x);
    SmallerNumber(x, PageCount(size));
    PagesWithin(x, size);
    PagesAligned(x);
    d := PagesLong(x);
  }

  /** A page of the block: whole pages, and less than its size, from its start. */
  ghost predicate InBlock(start: bv64, size: bv32, p: Page) {
    exists d :: Aligned(d) && Within(d, size) && p.address == Plus(start, d)
  }

  lemma BlockPagesIff(start: bv64, size: bv32, p: Page)
    requires PageMultiple(size)
    ensures p in BlockPages(start, size) <==> InBlock(start, size, p)
  {
    hide Aligned, PageMultiple, Within, Plus, PageAt, Pages;
    if InBlock(start, size, p) {
      var d :| Aligned(d) && Within(d, size) && p.address == Plus(start, d);
      PageAfter(start, size, d);
    }
    if p in BlockPages(start, size) {
      var k: nat :| k < Pages(size) && BlockPages(start, size)[k] == p;
      var d := DistanceOf(start, size, k);
    }
  }
}
