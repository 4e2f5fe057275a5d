/**
  How far a machine is from a corridor's path (`distanceToPathM` in `geometry.ts`), in the flat plane
  the source projects to: the machine is the origin, coordinates are real numbers, and distances are
  squared, which leaves their order as it is.
 */
module Corridor {
  import opened Options
  import opened RealArithmetic

  datatype Pt = Pt(x: real, y: real)

  function Times(x: real, y: real): real {
    x * y
  }

  function Squared(p: Pt): real {
    Times(p.x, p.x) + Times(p.y, p.y)
  }

  /** The point `t` of the way from `a` to `b`. */
  function Along(a: Pt, b: Pt, t: real): Pt {
    Pt(Mix(a.x, b.x, t), Mix(a.y, b.y, t))
  }

  function Mix(x: real, y: real, t: real): real {
    x + t * (y - x)
  }

  function Dot(a: Pt, b: Pt): real {
    Times(a.x, b.x - a.x) + Times(a.y, b.y - a.y)
  }

  function Length2(a: Pt, b: Pt): real {
    Times(b.x - a.x, b.x - a.x) + Times(b.y - a.y, b.y - a.y)
  }

  function Clamped(t: real): real {
    if t < 0.0 then 0.0 else if t > 1.0 then 1.0 else t
  }

  /** Where the machine's foot falls along the segment, clamped to it. */
  function Foot(a: Pt, b: Pt): real {
    if Length2(a, b) == 0.0 then 0.0 else Clamped(-Dot(a, b) / Length2(a, b))
  }

  ghost predicate OnSegment(a: Pt, b: Pt, p: Pt) {
    exists t :: 0.0 <= t <= 1.0 && p == Along(a, b, t)
  }

  ghost predicate OnPath(path: seq<Pt>, p: Pt) {
    exists i :: 0 <= i < |path| - 1 && OnSegment(path[i], path[i + 1], p)
  }

  /** The least squared distance to any point of the path. */
  ghost predicate Least(path: seq<Pt>, best: real) {
    && (exists p :: OnPath(path, p) && Squared(p) == best)
    && forall p :: OnPath(path, p) ==> best <= Squared(p)
  }

  // ------------------------------------------------------------------ one segment

  /** Squared distance along a segment, as a polynomial in how far along it is. */
  function Parabola(c: real, m: real, l: real, t: real): real {
    c + 2.0 * m * t + l * t * t
  }

  lemma AlongIsParabola(a: Pt, b: Pt, t: real)
    ensures Squared(Along(a, b, t)) == Parabola(Squared(a), Dot(a, b), Length2(a, b), t)
  {
    hide Mix, Parabola, Times;
    MixSquared(a.x, b.x, t);
    MixSquared(a.y, b.y, t);
    ParabolasAdd(Times(a.x, a.x), Times(a.x, b.x - a.x), Times(b.x - a.x, b.x - a.x),
                 Times(a.y, a.y), Times(a.y, b.y - a.y), Times(b.y - a.y, b.y - a.y), t);
  }

  lemma MixSquared(x: real, y: real, t: real)
    ensures Times(Mix(x, y, t), Mix(x, y, t)) == Parabola(Times(x, x), Times(x, y - x), Times(y - x, y - x), t)
  {
    Square(x, y - x, t);
  }

  lemma Square(x: real, d: real, t: real)
    ensures (x + t * d) * (x + t * d) == x * x + 2.0 * (x * d) * t + (d * d) * t * t
  {
  }

  lemma ParabolasAdd(c: real, m: real, l: real, c': real, m': real, l': real, t: real)
    ensures Parabola(c, m, l, t) + Parabola(c', m', l', t) == Parabola(c + c', m + m', l + l', t)
  {
  }

  lemma NonNegative(x: real)
    ensures x * x == Times(x, x) >= 0.0
  {
  }

  lemma Product(x: real, y: real)
    requires x >= 0.0 && y >= 0.0
    ensures x * y >= 0.0
  {
  }

  lemma LengthPositive(a: Pt, b: Pt)
    ensures Length2(a, b) >= 0.0
    ensures Length2(a, b) == 0.0 ==> Dot(a, b) == 0.0
  {
    hide Times;
    SquareAndProduct(a.x, b.x - a.x);
    SquareAndProduct(a.y, b.y - a.y);
  }

  lemma SquareAndProduct(x: real, d: real)
    ensures Times(d, d) >= 0.0
    ensures Times(d, d) == 0.0 ==> Times(x, d) == 0.0
  {
    if d > 0.0 {
      Positive(d, d);
    } else if d < 0.0 {
      Positive(-d, -d);
      assert (-d) * (-d) == d * d;
    } else {
      TimesZero(x, d);
      TimesZero(d, d);
    }
  }

  lemma TimesZero(x: real, y: real)
    requires y == 0.0
    ensures Times(x, y) == 0.0
  {
  }

  lemma Positive(x: real, y: real)
    requires x > 0.0 && y > 0.0
    ensures x * y > 0.0
  {
  }

  lemma Difference(c: real, m: real, l: real, s: real, t: real)
    ensures Parabola(c, m, l, s) - Parabola(c, m, l, t) == (s - t) * (2.0 * m + l * (s + t))
  {
  }

  lemma LeastInside(c: real, m: real, l: real, s: real, t: real)
    requires l >= 0.0 && m == -(t * l)
    ensures Parabola(c, m, l, t) <= Parabola(c, m, l, s)
  {
    Difference(c, m, l, s, t);
    assert 2.0 * m + l * (s + t) == l * (s - t);
    NonNegative(s - t);
    Product(l, (s - t) * (s - t));
    assert (s - t) * (l * (s - t)) == l * ((s - t) * (s - t));
  }

  lemma LeastAtStart(c: real, m: real, l: real, s: real)
    requires l >= 0.0 && m >= 0.0 && s >= 0.0
    ensures Parabola(c, m, l, 0.0) <= Parabola(c, m, l, s)
  {
    Difference(c, m, l, s, 0.0);
    Product(l, s);
    Product(s, 2.0 * m + l * s);
  }

  lemma LeastAtEnd(c: real, m: real, l: real, s: real)
    requires l >= 0.0 && m + l <= 0.0 && s <= 1.0
    ensures Parabola(c, m, l, 1.0) <= Parabola(c, m, l, s)
  {
    Difference(c, m, l, s, 1.0);
    var k := 1.0 - s;
    Product(l, k);
    assert 2.0 * m + l * (s + 1.0) == 2.0 * (m + l) - l * k;
    Product(k, -(2.0 * (m + l) - l * k));
    assert (s - 1.0) * (2.0 * m + l * (s + 1.0)) == k * -(2.0 * (m + l) - l * k);
  }

  lemma Quotient(m: real, l: real)
    requires l > 0.0
    ensures (-m / l) * l == -m
    ensures -m / l < 0.0 ==> m > 0.0
    ensures -m / l > 1.0 ==> m + l < 0.0
  {
    var q := -m / l;
    assert q * l == -m;
    if q < 0.0 {
      StrictlyScaled(l, q, 0.0);
    }
    if q > 1.0 {
      StrictlyScaled(l, 1.0, q);
    }
  }

  /** The clamped foot is at least as near as any other point of the segment. */
  lemma FootNearest(a: Pt, b: Pt, s: real)
    requires 0.0 <= s <= 1.0
    ensures 0.0 <= Foot(a, b) <= 1.0
    ensures Squared(Along(a, b, Foot(a, b))) <= Squared(Along(a, b, s))
  {
    hide Squared, Along, Dot, Length2, Parabola;
    var c, m, l, t := Squared(a), Dot(a, b), Length2(a, b), Foot(a, b);
    AlongIsParabola(a, b, s);
    AlongIsParabola(a, b, t);
    LengthPositive(a, b);
    if l == 0.0 {
      LeastAtStart(c, m, l, s);
    } else {
      Quotient(m, l);
      if t == 0.0 && -m / l < 0.0 {
        LeastAtStart(c, m, l, s);
      } else if t == 1.0 && -m / l > 1.0 {
        LeastAtEnd(c, m, l, s);
      } else {
        LeastInside(c, m, l, s, t);
      }
    }
  }

  // ------------------------------------------------------------------ a whole path

  method DistanceToPath(path: seq<Pt>) returns (best: Option<real>)
    ensures best.None? <==> |path| < 2
    ensures best.Some? ==> Least(path, best.value)
  {
    hide Squared, Along, Foot;
    best := None;
    var i := 0;
    while i + 1 < |path|
      invariant 0 <= i && (i == 0 || i < |path|)
      invariant best.None? <==> i == 0
      invariant best.Some? ==> Least(path[..i + 1], best.value)
    {
      var here := Squared(Along(path[i], path[i + 1], Foot(path[i], path[i + 1])));
      LongerPath(path, i, if best.Some? then best.value else here, here);
      best := Some(if best.Some? && best.value <= here then best.value else here);
      i := i + 1;
    }
    if |path| >= 2 {
      assert path[..i + 1] == path;
    }
  }

  lemma OnLongerPath(path: seq<Pt>, i: nat, p: Pt)
    requires i + 1 < |path|
    ensures OnPath(path[..i + 2], p) <==> OnPath(path[..i + 1], p) || OnSegment(path[i], path[i + 1], p)
  {
    hide OnSegment;
    var shorter, longer := path[..i + 1], path[..i + 2];
    if OnPath(shorter, p) {
      var j :| 0 <= j < i && OnSegment(shorter[j], shorter[j + 1], p);
      assert OnSegment(longer[j], longer[j + 1], p);
    }
    if OnSegment(path[i], path[i + 1], p) {
      assert OnSegment(longer[i], longer[i + 1], p);
    }
    if OnPath(longer, p) {
      var j :| 0 <= j < i + 1 && OnSegment(longer[j], longer[j + 1], p);
      if j < i {
        assert OnSegment(shorter[j], shorter[j + 1], p);
      }
    }
  }

  lemma LongerPath(path: seq<Pt>, i: nat, was: real, here: real)
    requires i + 1 < |path|
    requires if i == 0 then was == here else Least(path[..i + 1], was)
    requires here == Squared(Along(path[i], path[i + 1], Foot(path[i], path[i + 1])))
    ensures Least(path[..i + 2], if was <= here then was else here)
  {
    hide Squared, Along, Foot, OnPath;
    var a, b, best := path[i], path[i + 1], if was <= here then was else here;
    forall p | OnPath(path[..i + 2], p) ensures best <= Squared(p) {
      OnLongerPath(path, i, p);
      if OnSegment(a, b, p) {
        var t :| 0.0 <= t <= 1.0 && p == Along(a, b, t);
        FootNearest(a, b, t);
      } else if i == 0 {
        NoPath(path[..1], p);
      }
    }
    FootNearest(a, b, 0.0);
    var foot := Along(a, b, Foot(a, b));
    OnLongerPath(path, i, foot);
    if i > 0 && was <= here {
      var p :| OnPath(path[..i + 1], p) && Squared(p) == was;
      OnLongerPath(path, i, p);
    }
  }

  lemma NoPath(path: seq<Pt>, p: Pt)
    requires |path| < 2
    ensures !OnPath(path, p)
  {
  }

  /** In the corridor exactly when some point of its path is within half its width. */
  lemma InsideCorridor(path: seq<Pt>, best: real, half: real)
    requires Least(path, best) && half >= 0.0
    ensures best <= half * half <==> exists p :: OnPath(path, p) && p.x * p.x + p.y * p.y <= half * half
  {
    hide OnPath;
  }

  // ------------------------------------------------------------------ the same path, written another way

  function Reversed(path: seq<Pt>): (r: seq<Pt>)
    ensures |r| == |path|
  {
    seq(|path|, i requires 0 <= i < |path| => path[|path| - 1 - i])
  }

  lemma AlongBack(a: Pt, b: Pt, t: real)
    ensures Along(b, a, 1.0 - t) == Along(a, b, t)
  {
    hide Mix;
    MixBack(a.x, b.x, t);
    MixBack(a.y, b.y, t);
  }

  lemma MixBack(x: real, y: real, t: real)
    ensures Mix(y, x, 1.0 - t) == Mix(x, y, t)
  {
  }

  lemma SegmentBack(a: Pt, b: Pt, p: Pt)
    requires OnSegment(a, b, p)
    ensures OnSegment(b, a, p)
  {
    hide Along;
    var t :| 0.0 <= t <= 1.0 && p == Along(a, b, t);
    AlongBack(a, b, t);
  }

  lemma ReversedOnPath(path: seq<Pt>, p: Pt)
    requires OnPath(path, p)
    ensures OnPath(Reversed(path), p)
  {
    hide OnSegment;
    var i :| 0 <= i < |path| - 1 && OnSegment(path[i], path[i + 1], p);
    var j := |path| - 2 - i;
    SegmentBack(path[i], path[i + 1], p);
    assert OnSegment(Reversed(path)[j], Reversed(path)[j + 1], p);
  }

  /** Walking the path the other way leaves the distance as it is. */
  lemma ReverseKeepsDistance(path: seq<Pt>, best: real)
    ensures Least(path, best) <==> Least(Reversed(path), best)
  {
    hide OnPath, Reversed, Squared;
    forall p ensures OnPath(path, p) <==> OnPath(Reversed(path), p) {
      if OnPath(path, p) {
        ReversedOnPath(path, p);
      }
      if OnPath(Reversed(path), p) {
        ReversedOnPath(Reversed(path), p);
        ReversedTwice(path);
      }
    }
  }

  lemma ReversedTwice(path: seq<Pt>)
    ensures Reversed(Reversed(path)) == path
  {
  }

  /** A point of segment `i` written into the path. */
  function Split(path: seq<Pt>, i: nat, u: real): (split: seq<Pt>)
    requires i + 1 < |path|
    ensures |split| == |path| + 1 && split[i + 1] == Along(path[i], path[i + 1], u)
    ensures forall j :: 0 <= j < |split| && j != i + 1 ==> split[j] == path[if j <= i then j else j - 1]
  {
    path[..i + 1] + [Along(path[i], path[i + 1], u)] + path[i + 1..]
  }

  lemma FirstPart(a: Pt, b: Pt, u: real, t: real)
    ensures Along(a, Along(a, b, u), t) == Along(a, b, t * u)
  {
    hide Mix;
    MixInward(a.x, b.x, u, t);
    MixInward(a.y, b.y, u, t);
  }

  lemma MixInward(x: real, y: real, u: real, t: real)
    ensures Mix(x, Mix(x, y, u), t) == Mix(x, y, t * u)
  {
    var d := y - x;
    assert x + u * d - x == u * d;
    assert t * (u * d) == (t * u) * d;
  }

  lemma SecondPart(a: Pt, b: Pt, u: real, t: real)
    ensures Along(Along(a, b, u), b, t) == Along(a, b, u + t * (1.0 - u))
  {
    hide Mix;
    MixOnward(a.x, b.x, u, t);
    MixOnward(a.y, b.y, u, t);
  }

  lemma MixOnward(x: real, y: real, u: real, t: real)
    ensures Mix(Mix(x, y, u), y, t) == Mix(x, y, u + t * (1.0 - u))
  {
    var d := y - x;
    assert y - (x + u * d) == d - u * d;
    assert t * (d - u * d) == (t * (1.0 - u)) * d;
  }

  /** Each `t` of the whole segment is in its first part up to `u` or in the rest of it. */
  lemma PartOf(u: real, t: real) returns (first: bool, s: real)
    requires 0.0 <= u <= 1.0 && 0.0 <= t <= 1.0
    ensures 0.0 <= s <= 1.0 && (if first then s * u == t else u + s * (1.0 - u) == t)
  {
    if t < u {
      first, s := true, t / u;
      assert s * u == t;
      Ratio(t, u);
    } else if u == 1.0 {
      first, s := true, t;
    } else {
      first, s := false, (t - u) / (1.0 - u);
      assert s * (1.0 - u) == t - u;
      Ratio(t - u, 1.0 - u);
    }
  }

  lemma Ratio(x: real, y: real)
    requires 0.0 <= x <= y && y > 0.0
    ensures 0.0 <= x / y <= 1.0
  {
  }

  lemma PartsInside(t: real, u: real)
    requires 0.0 <= u <= 1.0 && 0.0 <= t <= 1.0
    ensures 0.0 <= t * u <= u && u <= u + t * (1.0 - u) <= 1.0
  {
    Product(t, u);
    Product(1.0 - t, u);
    Product(t, 1.0 - u);
    Product(1.0 - t, 1.0 - u);
  }

  /** A segment is its two parts. */
  lemma SplitSegment(a: Pt, b: Pt, u: real, p: Pt)
    requires 0.0 <= u <= 1.0
    ensures OnSegment(a, b, p) <==> OnSegment(a, Along(a, b, u), p) || OnSegment(Along(a, b, u), b, p)
  {
    hide Along;
    if OnSegment(a, b, p) {
      var t :| 0.0 <= t <= 1.0 && p == Along(a, b, t);
      var first, s := PartOf(u, t);
      FirstPart(a, b, u, s);
      SecondPart(a, b, u, s);
    }
    if OnSegment(a, Along(a, b, u), p) {
      var t :| 0.0 <= t <= 1.0 && p == Along(a, Along(a, b, u), t);
      PartsInside(t, u);
      FirstPart(a, b, u, t);
    }
    if OnSegment(Along(a, b, u), b, p) {
      var t :| 0.0 <= t <= 1.0 && p == Along(Along(a, b, u), b, t);
      PartsInside(t, u);
      SecondPart(a, b, u, t);
    }
  }

  lemma OnSplit(path: seq<Pt>, i: nat, u: real, p: Pt)
    requires i + 1 < |path| && 0.0 <= u <= 1.0 && OnPath(path, p)
    ensures OnPath(Split(path, i, u), p)
  {
    hide OnSegment, Along, Split;
    var split := Split(path, i, u);
    SplitSegment(path[i], path[i + 1], u, p);
    var j :| 0 <= j < |path| - 1 && OnSegment(path[j], path[j + 1], p);
    if j < i {
      assert OnSegment(split[j], split[j + 1], p);
    } else if j > i {
      assert OnSegment(split[j + 1], split[j + 2], p);
    } else {
      assert OnSegment(split[i], split[i + 1], p) || OnSegment(split[i + 1], split[i + 2], p);
    }
  }

  lemma OffSplit(path: seq<Pt>, i: nat, u: real, p: Pt)
    requires i + 1 < |path| && 0.0 <= u <= 1.0 && OnPath(Split(path, i, u), p)
    ensures OnPath(path, p)
  {
    hide OnSegment, Along, Split;
    var split := Split(path, i, u);
    SplitSegment(path[i], path[i + 1], u, p);
    var j :| 0 <= j < |split| - 1 && OnSegment(split[j], split[j + 1], p);
    if j < i {
      assert OnSegment(path[j], path[j + 1], p);
    } else if j > i + 1 {
      assert OnSegment(path[j - 1], path[j], p);
    } else {
      assert OnSegment(path[i], path[i + 1], p);
    }
  }

  /** Writing a point of the path into it leaves the distance as it is. */
  lemma SplitKeepsDistance(path: seq<Pt>, i: nat, u: real, best: real)
    requires i + 1 < |path| && 0.0 <= u <= 1.0
    ensures Least(path, best) <==> Least(Split(path, i, u), best)
  {
    hide OnPath, Split, Squared;
    forall p ensures OnPath(path, p) <==> OnPath(Split(path, i, u), p) {
      if OnPath(path, p) {
        OnSplit(path, i, u, p);
      }
      if OnPath(Split(path, i, u), p) {
        OffSplit(path, i, u, p);
      }
    }
  }
}
