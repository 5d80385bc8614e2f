/** The ladder of image widths (api/internal/api/srcset.go, services/imgproc.go), in
    exact arithmetic. */
module Ladder {
  import opened Prelude

  datatype Dims = Dims(width: nat, height: nat)

  /** services.VariantSizes. */
  const LADDER: seq<nat> := [128, 256, 512, 1024, 1600, 2048]

  function Longest(d: Dims): nat {
    if d.height > d.width then d.height else d.width
  }

  function BelowLongest(d: Dims): nat -> bool {
    rung => rung < Longest(d)
  }

  function Rungs(d: Dims): seq<nat> {
    Filter(LADDER, BelowLongest(d))
  }

  function AtLeastOne(n: nat): nat {
    if n < 1 then 1 else n
  }

  /** int(rung * (W / longest)), and no less than 1. */
  function RungWidth(rung: nat, d: Dims): nat
    requires d.width > 0
  {
    AtLeastOne(rung * d.width / Longest(d))
  }

  /** fitSize: the size of the image that is made for a box. */
  function FitSize(w: nat, h: nat, maxW: nat, maxH: nat): (nat, nat)
    requires w > 0 && h > 0
  {
    if w <= maxW && h <= maxH then (w, h)
    else if w * maxH > maxW * h then (AtLeastOne(maxW), AtLeastOne(maxW * h / w))
    else (AtLeastOne(maxH * w / h), AtLeastOne(maxH))
  }

  lemma MulMono(a: int, b: int, n: nat)
    requires a <= b
    ensures a * n <= b * n
  {
  }

  lemma DivIsBelow(x: nat, n: nat, q: int)
    requires n > 0 && x < (q + 1) * n
    ensures x / n <= q
  {
    var p := x / n;
    assert p * n <= x;
    MulMono(q + 1, if p > q then p else q + 1, n);
  }

  lemma DivIsAbove(x: nat, n: nat, q: int)
    requires n > 0 && q * n <= x
    ensures q <= x / n
  {
    var p := x / n;
    assert x < (p + 1) * n;
    MulMono(p + 1, if p < q then q else p + 1, n);
  }

  lemma DivExact(a: nat, b: nat)
    requires b > 0
    ensures a * b / b == a
  {
    MulMono(a, a + 1, b);
    assert (a + 1) * b == a * b + b;
    DivIsBelow(a * b, b, a);
    DivIsAbove(a * b, b, a);
  }

  /** A candidate states the width of the image that is served for it. */
  lemma DescriptorIsTheServedWidth(rung: nat, d: Dims)
    requires d.width > 0 && d.height > 0 && 0 < rung < Longest(d)
    ensures RungWidth(rung, d) == FitSize(d.width, d.height, rung, rung).0
  {
    if d.width > d.height {
      assert d.width * rung > rung * d.height;
      DivExact(rung, d.width);
    } else {
      assert d.width * rung <= rung * d.height;
    }
  }

  lemma DivMono(a: nat, b: nat, n: nat)
    requires n > 0 && a <= b
    ensures a / n <= b / n
  {
    assert a / n * n <= a;
    DivIsAbove(b, n, a / n);
  }

  lemma WidthsGrow(small: nat, large: nat, d: Dims)
    requires d.width > 0 && small <= large
    ensures RungWidth(small, d) <= RungWidth(large, d)
  {
    assert small * d.width <= large * d.width;
    DivMono(small * d.width, large * d.width, Longest(d));
  }

  lemma WidthFits(rung: nat, d: Dims)
    requires d.width > 0 && rung < Longest(d)
    ensures 1 <= RungWidth(rung, d) <= d.width
  {
    assert rung * d.width <= d.width * Longest(d);
    DivMono(rung * d.width, d.width * Longest(d), Longest(d));
    DivExact(d.width, Longest(d));
  }

  /** The width on a rung is the exact one rounded down, and never 0; an image that is
      not higher than wide gets the rung itself. */
  lemma WidthIsRoundedDown(rung: nat, d: Dims)
    requires d.width > 0
    ensures RungWidth(rung, d) >= 1 && rung * d.width < (RungWidth(rung, d) + 1) * Longest(d)
    ensures RungWidth(rung, d) > 1 ==> RungWidth(rung, d) * Longest(d) <= rung * d.width
    ensures d.height <= d.width && rung > 0 ==> RungWidth(rung, d) == rung
  {
    var x, n := rung * d.width, Longest(d);
    assert x == x / n * n + x % n;
    assert (x / n + 1) * n == x / n * n + n;
    MulMono(x / n + 1, RungWidth(rung, d) + 1, n);
    if d.height <= d.width {
      DivExact(rung, d.width);
    }
  }

  function WidthOf(d: Dims): nat -> nat
    requires d.width > 0
  {
    rung => RungWidth(rung, d)
  }

  /** The widths on offer: one for each rung, then the original's own. */
  function Widths(d: Dims): seq<nat>
    requires d.width > 0
  {
    Map(Rungs(d), WidthOf(d)) + [d.width]
  }

  lemma {:induction false} FilterAscends(s: seq<nat>, p: nat -> bool)
    requires forall i, j :: 0 <= i < j < |s| ==> s[i] < s[j]
    ensures forall i, j :: 0 <= i < j < |Filter(s, p)| ==> Filter(s, p)[i] < Filter(s, p)[j]
  {
    if s != [] {
      FilterAscends(s[1..], p);
      var rest := Filter(s[1..], p);
      forall j | 0 <= j < |rest|
        ensures s[0] < rest[j]
      {
        assert rest[j] in s[1..];
      }
    }
  }

  lemma LadderAscends()
    ensures forall i, j :: 0 <= i < j < |LADDER| ==> LADDER[i] < LADDER[j]
  {
  }

  lemma RungsAreTheSmaller(d: Dims)
    ensures forall r :: r in Rungs(d) <==> r in LADDER && r < Longest(d)
    ensures forall i, j :: 0 <= i < j < |Rungs(d)| ==> Rungs(d)[i] < Rungs(d)[j]
  {
    LadderAscends();
    FilterAscends(LADDER, BelowLongest(d));
  }

  /** An image above the largest rung is offered at all six. */
  lemma LargeImagesGetEveryRung(d: Dims)
    requires Longest(d) > 2048
    ensures Rungs(d) == [128, 256, 512, 1024, 1600, 2048]
  {
    FilterAll(LADDER, BelowLongest(d));
  }

  lemma WidthsFit(d: Dims)
    requires d.width > 0
    ensures forall i :: 0 <= i < |Widths(d)| ==> 1 <= Widths(d)[i] <= d.width
  {
    var rs := Rungs(d);
    forall i | 0 <= i < |rs|
      ensures 1 <= RungWidth(rs[i], d) <= d.width
    {
      assert rs[i] in rs;
      WidthFits(rs[i], d);
    }
  }

  lemma WidthsAscend(d: Dims)
    requires d.width > 0
    ensures forall i, j :: 0 <= i < j < |Widths(d)| ==> Widths(d)[i] <= Widths(d)[j]
  {
    var rs := Rungs(d);
    RungsAreTheSmaller(d);
    WidthsFit(d);
    forall i, j | 0 <= i < j < |Widths(d)|
      ensures Widths(d)[i] <= Widths(d)[j]
    {
      if j < |rs| {
        WidthsGrow(rs[i], rs[j], d);
      }
    }
  }

  /** Widths never fall and never pass the source; the rungs are in order and are all
      those below the longest side. */
  lemma WidthsAreHonest(d: Dims)
    requires d.width > 0
    ensures forall i, j :: 0 <= i < j < |Widths(d)| ==> Widths(d)[i] <= Widths(d)[j]
    ensures forall i :: 0 <= i < |Widths(d)| ==> 1 <= Widths(d)[i] <= d.width
    ensures forall r :: r in Rungs(d) <==> r in LADDER && r < Longest(d)
    ensures forall i, j :: 0 <= i < j < |Rungs(d)| ==> Rungs(d)[i] < Rungs(d)[j]
  {
    RungsAreTheSmaller(d);
    WidthsFit(d);
    WidthsAscend(d);
  }
}
