// Colours for numbers: bands of a colour set, and the interpolation between
// the two bands around a number that lies in none.

module ColorSet {
  import opened Text

  datatype Color = Color(red: int, green: int, blue: int, alpha: int)

  predicate IsColor(c: Color) {
    0 <= c.red < 256 && 0 <= c.green < 256 && 0 <= c.blue < 256 && 0 <= c.alpha < 256
  }

  const ABSENT := 99
  const BLACK := Color(0, 0, 0, 255)  // what an empty name stands for

  // Bounds count as below (negative), at (zero) or above (positive) their value.
  // A band may have no background.
  datatype Item =
    | Band(lowerWhat: int, upperWhat: int, lower: real, upper: real, background: Option<Color>, foreground: Color)
    | Always(background: Option<Color>, foreground: Color)
    | Invalid

  function Upperbound(b: Item): real
    requires b.Band?
  {
    if b.upper < b.lower then b.lower else b.upper
  }

  // Whether a number lies in a band.
  predicate Equal(i: Item, val: real) {
    match i
    case Always(_, _) => true
    case Invalid => false
    case Band(lowerWhat, upperWhat, lower, upper, _, _) =>
      lowerWhat != ABSENT &&
      if upperWhat == ABSENT then
        if lowerWhat < 0 then val < lower else if lowerWhat > 0 then val > lower else val == lower
      else if lowerWhat < 0 && val < lower then true
      else if lowerWhat == 0 && val < lower then false
      else if lowerWhat > 0 && val <= lower then false
      else if upperWhat < 0 then val < upper
      else if upperWhat == 0 then val <= upper
      else true
  }

  predicate Below(i: Item, val: real) {
    i.Band? && val > Upperbound(i)
  }

  predicate Above(i: Item, val: real) {
    i.Band? && val < i.lower
  }

  // Which numbers a band takes, by the kinds of its bounds.
  lemma BandTakes(i: Item, val: real)
    requires i.Band? && i.lowerWhat != ABSENT
    ensures i.lowerWhat == 0 && i.upperWhat == 0 ==> (Equal(i, val) <==> i.lower <= val <= i.upper)
    ensures i.lowerWhat == 0 && i.upperWhat < 0 ==> (Equal(i, val) <==> i.lower <= val < i.upper)
    ensures i.lowerWhat > 0 && i.upperWhat == 0 ==> (Equal(i, val) <==> i.lower < val <= i.upper)
    ensures i.lowerWhat > 0 && i.upperWhat < 0 ==> (Equal(i, val) <==> i.lower < val < i.upper)
    ensures i.lowerWhat == 0 && i.upperWhat > 0 && i.upperWhat != ABSENT ==> (Equal(i, val) <==> i.lower <= val)
    ensures i.lowerWhat > 0 && i.upperWhat > 0 && i.upperWhat != ABSENT ==> (Equal(i, val) <==> i.lower < val)
    ensures i.lowerWhat < 0 && i.upperWhat == 0 ==> (Equal(i, val) <==> val < i.lower || val <= i.upper)
    ensures i.lowerWhat < 0 && i.upperWhat < 0 ==> (Equal(i, val) <==> val < i.lower || val < i.upper)
    ensures i.lowerWhat < 0 && i.upperWhat > 0 && i.upperWhat != ABSENT ==> Equal(i, val)
    ensures i.lowerWhat == 0 && i.upperWhat == ABSENT ==> (Equal(i, val) <==> val == i.lower)
    ensures i.lowerWhat > 0 && i.upperWhat == ABSENT ==> (Equal(i, val) <==> i.lower < val)
    ensures i.lowerWhat < 0 && i.upperWhat == ABSENT ==> (Equal(i, val) <==> val < i.lower)
  {
  }

  // Without a lower bound a band takes nothing, and an item without bounds all.
  lemma OtherItemsTake(i: Item, val: real)
    ensures i.Band? && i.lowerWhat == ABSENT ==> !Equal(i, val)
    ensures i.Always? ==> Equal(i, val)
    ensures i.Invalid? ==> !Equal(i, val)
  {
  }

  // A band that is bounded on both sides has each number inside, below or above
  // it, but for its open ends.
  lemma InsideOrBeside(i: Item, val: real)
    requires i.Band? && 0 <= i.lowerWhat < ABSENT && i.upperWhat <= 0 && i.lower <= i.upper
    ensures Equal(i, val) ==> !Below(i, val) && !Above(i, val)
    ensures
      Equal(i, val) || Below(i, val) || Above(i, val) || (val == i.lower && i.lowerWhat > 0) ||
      (val == i.upper && i.upperWhat < 0)
    ensures i.lowerWhat == 0 && i.upperWhat == 0 ==> Equal(i, i.lower) && Equal(i, i.upper)
  {
  }

  // Whatever its bounds, no number is both below and above a band.
  lemma NeverBoth(i: Item, val: real)
    ensures !(Below(i, val) && Above(i, val))
    ensures i.Band? ==> Upperbound(i) >= i.lower && Upperbound(i) >= i.upper
  {
  }

  // Bands side by side, each with its lower bound and without its upper one,
  // share no number and leave none out.
  lemma SideBySide(i: Item, j: Item, val: real)
    requires i.Band? && j.Band? && i.lowerWhat == 0 == j.lowerWhat && i.upperWhat < 0 && j.upperWhat < 0
    requires i.lower <= i.upper == j.lower <= j.upper
    ensures Equal(i, val) || Equal(j, val) <==> i.lower <= val < j.upper
    ensures !(Equal(i, val) && Equal(j, val))
  {
  }

  // The first band with the greatest upper bound below a number.
  predicate NearestBelow(items: seq<Item>, val: real, l: nat) {
    l < |items| && Below(items[l], val) &&
    forall j | 0 <= j < |items| && Below(items[j], val) ::
      Upperbound(items[j]) <= Upperbound(items[l]) && (j < l ==> Upperbound(items[j]) < Upperbound(items[l]))
  }

  // The first band with the least lower bound above a number.
  predicate NearestAbove(items: seq<Item>, val: real, u: nat) {
    u < |items| && Above(items[u], val) &&
    forall j | 0 <= j < |items| && Above(items[j], val) ::
      items[j].lower >= items[u].lower && (j < u ==> items[j].lower > items[u].lower)
  }

  // A number on its way from one channel to another, cut off behind the point.
  function Truncated(x: real): int {
    if x >= 0.0 then x.Floor else -((-x).Floor)
  }

  function Times(a: real, b: real): real {
    a * b
  }

  // How the machine rounds a number.
  type Rounding = real -> real

  // A number of steps on top of a channel, as the machine adds them.
  function Added(channel: int, steps: real, rnd: Rounding): int {
    Truncated(rnd(channel as real + rnd(steps)))
  }

  function Channel(low: int, up: int, coeff: real, rnd: Rounding): int {
    Added(low, Times(coeff, (up - low) as real), rnd)
  }

  function Mix(low: Color, up: Color, coeff: real, rnd: Rounding): Color {
    Color(Channel(low.red, up.red, coeff, rnd), Channel(low.green, up.green, coeff, rnd),
          Channel(low.blue, up.blue, coeff, rnd), Channel(low.alpha, up.alpha, coeff, rnd))
  }

  // Rounding keeps the order of numbers, and short fractions as they are.
  ghost predicate Rounds(rnd: Rounding) {
    (forall x, y | x <= y :: rnd(x) <= rnd(y)) &&
    forall k | -65536 <= k <= 65536 :: rnd(Fraction(k)) == Fraction(k)
  }

  function Fraction(k: int): real {
    k as real / 256.0
  }

  // Less than eps is lost beside a channel.
  ghost predicate Absorbs(rnd: Rounding, eps: real) {
    forall n, y | 0 <= n < 256 && -eps < y < eps :: Added(n, y, rnd) == n
  }

  function Exact(x: real): real {
    x
  }

  // Both can be had, for instance by rounding to the nearest such fraction.
  function Nearest(x: real): real {
    Fraction((256.0 * x + 0.5).Floor)
  }

  lemma NearestRounds()
    ensures Rounds(Nearest) && Absorbs(Nearest, 0.001)
  {
    hide Nearest, Added;
    forall x: real, y: real | x <= y ensures Nearest(x) <= Nearest(y) {
      NearestOrder(x, y);
    }
    forall k: int ensures Nearest(Fraction(k)) == Fraction(k) {
      NearestFixes(k);
    }
    forall n: int, y: real | 0 <= n < 256 && -0.001 < y < 0.001 ensures Added(n, y, Nearest) == n {
      NearestAbsorbs(n, y);
    }
  }

  lemma NearestOrder(x: real, y: real)
    requires x <= y
    ensures Nearest(x) <= Nearest(y)
  {
    hide Fraction;
    FloorOrder(256.0 * x + 0.5, 256.0 * y + 0.5);
    FractionMonotone((256.0 * x + 0.5).Floor, (256.0 * y + 0.5).Floor);
  }

  lemma FloorOrder(x: real, y: real)
    requires x <= y
    ensures x.Floor <= y.Floor
  {
  }

  lemma FractionMonotone(j: int, k: int)
    requires j <= k
    ensures Fraction(j) <= Fraction(k)
  {
  }

  lemma NearestFixes(k: int)
    ensures Nearest(Fraction(k)) == Fraction(k)
  {
    FloorOfHalf(k, 256.0 * Fraction(k) + 0.5);
  }

  lemma FloorOfHalf(k: int, x: real)
    requires x == k as real + 0.5
    ensures x.Floor == k
  {
  }

  lemma NearestAbsorbs(n: int, y: real)
    requires 0 <= n && -0.001 < y < 0.001
    ensures Added(n, y, Nearest) == n
  {
    assert (256.0 * y + 0.5).Floor == 0;
    assert Nearest(y) == 0.0;
    assert Fraction(256 * n) == n as real;
    NearestFixes(256 * n);
  }

  predicate Between(x: int, a: int, b: int) {
    if a <= b then a <= x <= b else b <= x <= a
  }

  lemma AddedWithin(n: int, y: real, j: int, k: int, rnd: Rounding)
    requires Rounds(rnd) && Fraction(j) <= y <= Fraction(k) && -65536 <= j && k <= 65536
    requires -65536 <= 256 * n + j && 256 * n + k <= 65536
    ensures Fraction(256 * n + j) <= rnd(n as real + rnd(y)) <= Fraction(256 * n + k)
  {
    FractionOrder(j, k);
    assert rnd(Fraction(j)) <= rnd(y) <= rnd(Fraction(k));
    var z := n as real + rnd(y);
    assert Fraction(256 * n + j) <= z <= Fraction(256 * n + k);
    assert rnd(Fraction(256 * n + j)) <= rnd(z) <= rnd(Fraction(256 * n + k));
  }

  lemma FractionOrder(j: int, k: int)
    requires Fraction(j) <= Fraction(k)
    ensures j <= k
  {
  }

  lemma ChannelBetween(low: int, up: int, coeff: real, rnd: Rounding)
    requires 0 <= low < 256 && 0 <= up < 256 && 0.0 <= coeff <= 1.0 && Rounds(rnd)
    ensures Between(Channel(low, up, coeff, rnd), low, up)
  {
    hide Times, Truncated, Rounds;
    var d := (up - low) as real;
    PartOf(coeff, d);
    if low <= up {
      AddedWithin(low, Times(coeff, d), 0, 256 * (up - low), rnd);
      TruncatedBetween(rnd(low as real + rnd(Times(coeff, d))), low, up);
    } else {
      AddedWithin(low, Times(coeff, d), 256 * (up - low), 0, rnd);
      TruncatedBetween(rnd(low as real + rnd(Times(coeff, d))), up, low);
    }
  }

  lemma TruncatedBetween(x: real, a: int, b: int)
    requires 0 <= a && a as real <= x <= b as real
    ensures a <= Truncated(x) <= b
  {
    FloorBounds(x, a, b);
  }

  lemma PartOf(c: real, d: real)
    requires 0.0 <= c <= 1.0
    ensures if d >= 0.0 then 0.0 <= Times(c, d) <= d else d <= Times(c, d) <= 0.0
  {
  }

  lemma FloorBounds(x: real, a: int, b: int)
    requires a as real <= x <= b as real
    ensures a <= x.Floor <= b
  {
  }

  // A channel lies less than a step and the rounding from the share's point of
  // the way, towards zero.
  lemma ChannelOnTheWay(low: int, up: int, coeff: real, rnd: Rounding, err: real)
    requires 0 <= low < 256 && 0 <= up < 256 && 0.0 <= coeff <= 1.0 && Rounds(rnd)
    requires forall x | -256.0 <= x <= 256.0 :: x - err <= rnd(x) <= x + err
    ensures
      var point := low as real + Times(coeff, (up - low) as real);
      point - 2.0 * err - 1.0 < Channel(low, up, coeff, rnd) as real <= point + 2.0 * err
  {
    hide Times, Truncated, Rounds;
    var y := Times(coeff, (up - low) as real);
    PartOf(coeff, (up - low) as real);
    var z := low as real + rnd(y);
    InRange(low, up, y, rnd);
    ChannelBetween(low, up, coeff, rnd);
    TruncatedNear(rnd(z));
  }

  lemma InRange(low: int, up: int, y: real, rnd: Rounding)
    requires 0 <= low < 256 && 0 <= up < 256 && Rounds(rnd)
    requires if up >= low then 0.0 <= y <= (up - low) as real else (up - low) as real <= y <= 0.0
    ensures -256.0 <= low as real + rnd(y) <= 256.0 && 0.0 <= rnd(low as real + rnd(y))
  {
    if low <= up {
      AddedWithin(low, y, 0, 256 * (up - low), rnd);
      RoundedWithin(y, 0, 256 * (up - low), rnd);
    } else {
      AddedWithin(low, y, 256 * (up - low), 0, rnd);
      RoundedWithin(y, 256 * (up - low), 0, rnd);
    }
  }

  lemma RoundedWithin(y: real, j: int, k: int, rnd: Rounding)
    requires Rounds(rnd) && Fraction(j) <= y <= Fraction(k) && -65536 <= j && k <= 65536
    ensures Fraction(j) <= rnd(y) <= Fraction(k)
  {
    FractionOrder(j, k);
    assert rnd(Fraction(j)) <= rnd(y) <= rnd(Fraction(k));
  }

  lemma TruncatedNear(x: real)
    requires x >= 0.0
    ensures x - 1.0 < Truncated(x) as real <= x
  {
  }

  // Every channel of a mixed colour lies between those of the two colours.
  lemma MixBetween(low: Color, up: Color, coeff: real, rnd: Rounding)
    requires IsColor(low) && IsColor(up) && 0.0 <= coeff <= 1.0 && Rounds(rnd)
    ensures
      var c := Mix(low, up, coeff, rnd);
      IsColor(c) && Between(c.red, low.red, up.red) && Between(c.green, low.green, up.green) &&
      Between(c.blue, low.blue, up.blue) && Between(c.alpha, low.alpha, up.alpha)
  {
    hide Channel;
    ChannelBetween(low.red, up.red, coeff, rnd);
    ChannelBetween(low.green, up.green, coeff, rnd);
    ChannelBetween(low.blue, up.blue, coeff, rnd);
    ChannelBetween(low.alpha, up.alpha, coeff, rnd);
  }

  // The share of the way from one bound to the other.
  lemma CoefficientInside(val: real, low: real, up: real)
    requires low < val < up
    ensures 0.0 < (val - low) / (up - low) < 1.0
    ensures (val - low) + (up - val) == up - low
  {
    Proper(val - low, up - low);
  }

  lemma Proper(x: real, y: real)
    requires 0.0 < x < y
    ensures 0.0 < x / y < 1.0
  {
    var q := x / y;
    assert q * y == x;
    if q >= 1.0 {
      AtLeast(q, y);
    }
  }

  lemma AtLeast(q: real, y: real)
    requires q >= 1.0 && y > 0.0
    ensures q * y >= y
  {
    assert (q - 1.0) * y >= 0.0;
  }

  // The first item that a number lies in.
  method GetColorItem(items: seq<Item>, val: real) returns (found: bool, i: nat)
    ensures found <==> exists k | 0 <= k < |items| :: Equal(items[k], val)
    ensures found ==> i < |items| && Equal(items[i], val) && forall k | 0 <= k < i :: !Equal(items[k], val)
  {
    i := 0;
    while i < |items|
      invariant i <= |items| && forall k | 0 <= k < i :: !Equal(items[k], val)
    {
      if Equal(items[i], val) {
        return true, i;
      }
      i := i + 1;
    }
    return false, i;
  }

  // The bands next to a number on both sides, with their distances.
  datatype Neighbours = Neighbours(minLow: real, dMin: real, low: Option<Color>, lowFore: Color, minUp: real,
                                   up: Option<Color>, upFore: Color)

  ghost predicate FoundBelow(items: seq<Item>, val: real, huge: real, junk: real, n: Neighbours, l: nat) {
    if n.minLow < huge then
      NearestBelow(items, val, l) && n.dMin == Upperbound(items[l]) && n.minLow == val - n.dMin &&
      n.low == items[l].background && n.lowFore == items[l].foreground
    else
      n.minLow == huge && n.dMin == junk && n.low == None && n.lowFore == BLACK &&
      forall j | 0 <= j < |items| :: !Below(items[j], val)
  }

  ghost predicate FoundAbove(items: seq<Item>, val: real, huge: real, n: Neighbours, u: nat) {
    if n.minUp < huge then
      NearestAbove(items, val, u) && n.minUp == items[u].lower - val &&
      n.up == items[u].background && n.upFore == items[u].foreground
    else n.minUp == huge && n.up == None && n.upFore == BLACK && forall j | 0 <= j < |items| :: !Above(items[j], val)
  }

  lemma BelowStep(items: seq<Item>, k: nat, val: real, huge: real, junk: real, n: Neighbours, l: nat, m: Neighbours)
    requires k < |items| && FoundBelow(items[..k], val, huge, junk, n, l)
    requires items[k].Band? ==> val - Upperbound(items[k]) < huge
    requires
      if Below(items[k], val) && val - Upperbound(items[k]) < n.minLow then
        m.minLow == val - Upperbound(items[k]) && m.dMin == Upperbound(items[k]) &&
        m.low == items[k].background && m.lowFore == items[k].foreground
      else m.minLow == n.minLow && m.dMin == n.dMin && m.low == n.low && m.lowFore == n.lowFore
    ensures FoundBelow(items[..k + 1], val, huge, junk, m, if m.minLow < n.minLow then k else l)
  {
    assert items[..k + 1][..k] == items[..k];
  }

  lemma AboveStep(items: seq<Item>, k: nat, val: real, huge: real, n: Neighbours, u: nat, m: Neighbours)
    requires k < |items| && FoundAbove(items[..k], val, huge, n, u)
    requires items[k].Band? ==> items[k].lower - val < huge
    requires
      if Above(items[k], val) && items[k].lower - val < n.minUp then
        m.minUp == items[k].lower - val && m.up == items[k].background && m.upFore == items[k].foreground
      else m.minUp == n.minUp && m.up == n.up && m.upFore == n.upFore
    ensures FoundAbove(items[..k + 1], val, huge, m, if m.minUp < n.minUp then k else u)
  {
    assert items[..k + 1][..k] == items[..k];
  }

  method FindNeighbours(items: seq<Item>, val: real, huge: real, junk: real)
    returns (n: Neighbours, ghost l: nat, ghost u: nat)
    requires forall i | i in items && i.Band? :: i.lower - val < huge && val - Upperbound(i) < huge
    ensures FoundBelow(items, val, huge, junk, n, l) && FoundAbove(items, val, huge, n, u)
  {
    hide FoundBelow, FoundAbove;
    n := Neighbours(huge, junk, None, BLACK, huge, None, BLACK);
    l, u := 0, 0;
    NothingFound(val, huge, junk);
    assert items[..0] == [];
    for k := 0 to |items|
      invariant FoundBelow(items[..k], val, huge, junk, n, l) && FoundAbove(items[..k], val, huge, n, u)
    {
      ghost var before := n;
      assert items[k] in items;
      if items[k].Band? {
        var min, max := items[k].lower, Upperbound(items[k]);
        if val < min && min - val < n.minUp {
          n := n.(minUp := min - val, up := items[k].background, upFore := items[k].foreground);
        } else if val > max && val - max < n.minLow {
          n := n.(minLow := val - max, dMin := max, low := items[k].background, lowFore := items[k].foreground);
        }
      }
      BelowStep(items, k, val, huge, junk, before, l, n);
      AboveStep(items, k, val, huge, before, u, n);
      l := if n.minLow < before.minLow then k else l;
      u := if n.minUp < before.minUp then k else u;
    }
    assert items[..|items|] == items;
  }

  lemma NothingFound(val: real, huge: real, junk: real)
    ensures FoundBelow([], val, huge, junk, Neighbours(huge, junk, None, BLACK, huge, None, BLACK), 0)
    ensures FoundAbove([], val, huge, Neighbours(huge, junk, None, BLACK, huge, None, BLACK), 0)
  {
  }

  // The neighbours of a number, as far as there are any.
  ghost predicate Sides(items: seq<Item>, val: real, l: Option<nat>, u: Option<nat>) {
    (match l
     case Some(i) => NearestBelow(items, val, i)
     case None => forall j | 0 <= j < |items| :: !Below(items[j], val)) &&
    (match u
     case Some(i) => NearestAbove(items, val, i)
     case None => forall j | 0 <= j < |items| :: !Above(items[j], val))
  }

  function BackgroundAt(items: seq<Item>, i: Option<nat>): Option<Color>
    requires i.Some? ==> i.value < |items| && items[i.value].Band?
  {
    if i.None? then None else items[i.value].background
  }

  function ForegroundAt(items: seq<Item>, i: Option<nat>): Color
    requires i.Some? ==> i.value < |items| && items[i.value].Band?
  {
    if i.None? then BLACK else items[i.value].foreground
  }

  function OrBlack(c: Option<Color>): Color {
    if c.None? then BLACK else c.value
  }

  // The share of the way to the upper neighbour. `huge` stands for the distance
  // of a missing neighbour and `junk` for the bound of a missing lower one.
  function Share(items: seq<Item>, val: real, huge: real, junk: real, l: Option<nat>, u: Option<nat>): real
    requires huge > 0.0 && Sides(items, val, l, u)
  {
    var from := if l.None? then junk else Upperbound(items[l.value]);
    var below := if l.None? then huge else val - from;
    var above := if u.None? then huge else items[u.value].lower - val;
    (val - from) / (below + above)
  }

  // Background and foreground between two neighbours; black stands for a colour
  // that is missing.
  function Blended(items: seq<Item>, val: real, huge: real, junk: real, rnd: Rounding, l: Option<nat>,
                   u: Option<nat>): (Color, Color)
    requires huge > 0.0 && Sides(items, val, l, u)
  {
    var share := Share(items, val, huge, junk, l, u);
    (Mix(OrBlack(BackgroundAt(items, l)), OrBlack(BackgroundAt(items, u)), share, rnd),
     Mix(ForegroundAt(items, l), ForegroundAt(items, u), share, rnd))
  }

  predicate NoneEqual(items: seq<Item>, val: real) {
    forall k | 0 <= k < |items| :: !Equal(items[k], val)
  }

  // The colours of a number: those of an item it lies in, or else a mixture of
  // the colours of its neighbours, where black stands for a missing one.
  method GetInterpolatedColors(items: seq<Item>, val: real, huge: real, junk: real, rnd: Rounding)
    returns (found: bool, background: Option<Color>, foreground: Color)
    requires huge > 0.0 && forall i | i in items && i.Band? :: i.lower - val < huge && val - Upperbound(i) < huge
    ensures forall k | 0 <= k < |items| && Equal(items[k], val) && (forall j | 0 <= j < k :: !Equal(items[j], val)) ::
      found && background == items[k].background && foreground == items[k].foreground
    ensures forall l, u | NoneEqual(items, val) && Sides(items, val, l, u) ::
      if BackgroundAt(items, l) == None && BackgroundAt(items, u) == None then !found
      else
        var blended := Blended(items, val, huge, junk, rnd, l, u);
        found && background == Some(blended.0) && foreground == blended.1
  {
    hide Mix, Equal, FoundBelow, FoundAbove, NearestBelow, NearestAbove, Sides;
    var same, at := GetColorItem(items, val);
    if same {
      EqualHasColors(items[at], val);
      return true, items[at].background, items[at].foreground;
    }
    var n, l, u := FindNeighbours(items, val, huge, junk);
    PositiveDistances(items, val, huge, junk, n, l, u);
    UniqueSides(items, val, huge, junk, n, l, u);
    if n.low == None && n.up == None {
      return false, None, BLACK;
    }
    var coeff := (val - n.dMin) / (n.minLow + n.minUp);
    background := Some(Mix(OrBlack(n.low), OrBlack(n.up), coeff, rnd));
    foreground := Mix(n.lowFore, n.upFore, coeff, rnd);
    found := true;
  }

  lemma Unique(items: seq<Item>, val: real, huge: real, junk: real, n: Neighbours, l: nat, u: nat,
               l2: Option<nat>, u2: Option<nat>)
    requires huge > 0.0 && Sides(items, val, l2, u2)
    requires FoundBelow(items, val, huge, junk, n, l) && FoundAbove(items, val, huge, n, u)
    ensures n.low == BackgroundAt(items, l2) && n.up == BackgroundAt(items, u2)
    ensures n.lowFore == ForegroundAt(items, l2) && n.upFore == ForegroundAt(items, u2)
    ensures Share(items, val, huge, junk, l2, u2) == (val - n.dMin) / (n.minLow + n.minUp)
  {
    assert n.dMin == if l2.None? then junk else Upperbound(items[l2.value]);
    assert n.minLow == if l2.None? then huge else val - n.dMin;
    assert n.minUp == if u2.None? then huge else items[u2.value].lower - val;
  }

  lemma UniqueSides(items: seq<Item>, val: real, huge: real, junk: real, n: Neighbours, l: nat, u: nat)
    requires huge > 0.0 && FoundBelow(items, val, huge, junk, n, l) && FoundAbove(items, val, huge, n, u)
    ensures forall l2, u2 | Sides(items, val, l2, u2) ::
      n.low == BackgroundAt(items, l2) && n.up == BackgroundAt(items, u2) &&
      n.lowFore == ForegroundAt(items, l2) && n.upFore == ForegroundAt(items, u2) &&
      Share(items, val, huge, junk, l2, u2) == (val - n.dMin) / (n.minLow + n.minUp)
  {
    forall l2, u2 | Sides(items, val, l2, u2)
      ensures
        n.low == BackgroundAt(items, l2) && n.up == BackgroundAt(items, u2) &&
        n.lowFore == ForegroundAt(items, l2) && n.upFore == ForegroundAt(items, u2) &&
        Share(items, val, huge, junk, l2, u2) == (val - n.dMin) / (n.minLow + n.minUp)
    {
      Unique(items, val, huge, junk, n, l, u, l2, u2);
    }
  }

  lemma PositiveDistances(items: seq<Item>, val: real, huge: real, junk: real, n: Neighbours, l: nat, u: nat)
    requires huge > 0.0 && FoundBelow(items, val, huge, junk, n, l) && FoundAbove(items, val, huge, n, u)
    ensures n.minLow > 0.0 && n.minUp > 0.0
  {
  }

  // Between two neighbours the share lies strictly between 0 and 1, so every
  // channel lies between those of their colours.
  lemma EnclosedMixes(items: seq<Item>, val: real, huge: real, junk: real, rnd: Rounding, l: nat, u: nat)
    requires huge > 0.0 && Rounds(rnd) && Sides(items, val, Some(l), Some(u))
    requires IsColor(OrBlack(items[l].background)) && IsColor(OrBlack(items[u].background))
    ensures
      var share := Share(items, val, huge, junk, Some(l), Some(u));
      var low, up := OrBlack(items[l].background), OrBlack(items[u].background);
      var c := Mix(low, up, share, rnd);
      share == (val - Upperbound(items[l])) / (items[u].lower - Upperbound(items[l])) && 0.0 < share < 1.0 &&
      IsColor(c) && Between(c.red, low.red, up.red) && Between(c.green, low.green, up.green) &&
      Between(c.blue, low.blue, up.blue) && Between(c.alpha, low.alpha, up.alpha)
  {
    hide Mix;
    CoefficientInside(val, Upperbound(items[l]), items[u].lower);
    MixBetween(OrBlack(items[l].background), OrBlack(items[u].background),
               Share(items, val, huge, junk, Some(l), Some(u)), rnd);
  }

  // -------------------------------------------- a lower neighbour alone

  // A lower neighbour alone is mixed with black by the share of its distance in
  // the distance plus a huge one. What is taken off its channels is less than
  // the machine can tell unless the distance is huge as well; then its colour
  // fades.
  lemma LowerAlone(items: seq<Item>, val: real, huge: real, junk: real, rnd: Rounding, l: nat, c: Color)
    requires huge > 0.0 && Sides(items, val, Some(l), None) && IsColor(c)
    ensures
      var gap, share := val - Upperbound(items[l]), Share(items, val, huge, junk, Some(l), None);
      share == gap / (gap + huge) && 0.0 < share < 1.0 &&
      (forall eps | Absorbs(rnd, eps) && Times(256.0, gap) <= Times(eps, huge) :: Mix(c, BLACK, share, rnd) == c) &&
      (Rounds(rnd) && Times(share, Largest(c) as real) >= 1.0 ==> Mix(c, BLACK, share, rnd) != c)
  {
    hide Times, Added, Channel, Absorbs, Rounds;
    var gap, share := val - Upperbound(items[l]), Share(items, val, huge, junk, Some(l), None);
    Proper(gap, gap + huge);
    forall eps | Absorbs(rnd, eps) && Times(256.0, gap) <= Times(eps, huge) ensures Mix(c, BLACK, share, rnd) == c {
      SmallShare(gap, huge, eps);
      SmallShareKeeps(c, BLACK, share, eps, rnd);
    }
    if Rounds(rnd) && Times(share, Largest(c) as real) >= 1.0 {
      ChannelFades(Largest(c), share, rnd);
    }
  }

  function Largest(c: Color): int {
    var m := if c.red < c.green then c.green else c.red;
    if m < c.blue then c.blue else m
  }

  lemma SmallShare(gap: real, huge: real, eps: real)
    requires gap > 0.0 && huge > 0.0 && Times(256.0, gap) <= Times(eps, huge)
    ensures Times(256.0, gap / (gap + huge)) < eps
  {
    hide Times;
    var q := gap / (gap + huge);
    if eps <= 0.0 {
      NotPositive(eps, huge);
    }
    Positive(256.0, gap);
    Shares(q, gap, huge);
    Sums(eps, gap, huge);
    if Times(256.0, q) >= eps {
      Larger(Times(256.0, q), eps, gap + huge);
      Positive(eps, gap);
    }
  }

  lemma Shares(q: real, gap: real, huge: real)
    requires gap + huge > 0.0 && q == gap / (gap + huge)
    ensures Times(Times(256.0, q), gap + huge) == Times(256.0, gap)
  {
    assert q * (gap + huge) == gap;
  }

  lemma Sums(a: real, b: real, c: real)
    ensures Times(a, b + c) == Times(a, b) + Times(a, c)
  {
  }

  lemma Positive(a: real, b: real)
    requires b > 0.0
    ensures a > 0.0 ==> Times(a, b) > 0.0
  {
  }

  lemma NotPositive(a: real, b: real)
    requires a <= 0.0 && b > 0.0
    ensures Times(a, b) <= 0.0
  {
  }

  lemma Larger(a: real, b: real, c: real)
    requires a >= b && c >= 0.0
    ensures Times(a, c) >= Times(b, c)
  {
    assert (a - b) * c >= 0.0;
  }

  // A channel of a colour misses its own by at most 256 times the share.
  lemma Missing(a: int, b: int, share: real)
    requires 0 <= a < 256 && 0 <= b < 256 && share > 0.0
    ensures -Times(256.0, share) < Times(share, (b - a) as real) < Times(256.0, share)
  {
    hide Times;
    var d := (b - a) as real;
    Sums(share, 256.0 - d, d);
    Sums(share, 256.0 + d, -d);
    TimesMinus(share, d);
    Positive(share, 256.0 - d);
    Positive(share, 256.0 + d);
    Commute(share, 256.0);
  }

  lemma Commute(a: real, b: real)
    ensures Times(a, b) == Times(b, a)
  {
  }

  lemma SmallShareKeeps(c: Color, other: Color, share: real, eps: real, rnd: Rounding)
    requires IsColor(c) && IsColor(other) && share > 0.0 && Times(256.0, share) < eps && Absorbs(rnd, eps)
    ensures Mix(c, other, share, rnd) == c
  {
    hide Times, Added;
    Missing(c.red, other.red, share);
    Missing(c.green, other.green, share);
    Missing(c.blue, other.blue, share);
    Missing(c.alpha, other.alpha, share);
  }

  lemma ChannelFades(x: int, share: real, rnd: Rounding)
    requires 0 <= x < 256 && 0.0 < share < 1.0 && Rounds(rnd) && Times(share, x as real) >= 1.0
    ensures Channel(x, 0, share, rnd) != x
  {
    hide Times, Rounds;
    var y := Times(share, (0 - x) as real);
    TimesMinus(share, x as real);
    PartOf(share, (0 - x) as real);
    AddedWithin(x, y, -256 * x, -256, rnd);
  }

  lemma TimesMinus(a: real, b: real)
    ensures Times(a, -b) == -Times(a, b)
  {
  }

  // ------------------------------------------- an upper neighbour alone

  // An upper neighbour alone is mixed from black by a share that depends on the
  // uninitialised bound. But for rounding, its own colour comes out exactly if it
  // is black, or the share is 1 or so little more that its largest channel stays
  // within one step; likewise for transparency.
  lemma UpperAlone(items: seq<Item>, val: real, huge: real, junk: real, u: nat, c: Color)
    requires huge > 0.0 && Sides(items, val, None, Some(u)) && IsColor(c)
    ensures
      var share := Share(items, val, huge, junk, None, Some(u));
      share == (val - junk) / (huge + (items[u].lower - val)) &&
      (Mix(BLACK, c, share, Exact) == c <==>
       (Largest(c) == 0 || (share >= 1.0 && Times(share - 1.0, Largest(c) as real) < 1.0)) &&
       AlphaArrives(c.alpha, share))
  {
    hide Times, Channel, AlphaArrives;
    var share := Share(items, val, huge, junk, None, Some(u));
    ColourArrives(c.red, Largest(c), share);
    ColourArrives(c.green, Largest(c), share);
    ColourArrives(c.blue, Largest(c), share);
    AlphaIs(c.alpha, share);
  }

  predicate AlphaArrives(alpha: int, share: real) {
    alpha == 255 || (share <= 1.0 && Times(1.0 - share, (255 - alpha) as real) < 1.0) ||
    (alpha == 0 && share >= 1.0 && Times(share - 1.0, 255.0) < 1.0)
  }

  lemma ColourArrives(x: int, largest: int, share: real)
    requires 0 <= x <= largest
    ensures share >= 1.0 && Times(share - 1.0, largest as real) < 1.0 ==> Channel(0, x, share, Exact) == x
    ensures Channel(0, x, share, Exact) == x ==> x == 0 || (share >= 1.0 && Times(share - 1.0, x as real) < 1.0)
    ensures x == 0 ==> Channel(0, x, share, Exact) == x
  {
    hide Times;
    var y, missing := Times(share, (x - 0) as real), Times(share - 1.0, x as real);
    TimesLess(share, x as real);
    TruncatedIs(y, x, missing);
    TimesSign(share - 1.0, x as real);
    if share >= 1.0 {
      TimesOrder(share - 1.0, x as real, largest as real);
    }
    if x == 0 {
      TimesZero(share);
    }
  }

  lemma AlphaIs(alpha: int, share: real)
    requires 0 <= alpha < 256
    ensures Channel(255, alpha, share, Exact) == alpha <==> AlphaArrives(alpha, share)
  {
    hide Times;
    var d := (alpha - 255) as real;
    var y := 255.0 + Times(share, d);
    TimesLess(share, d);
    TruncatedIs(y, alpha, Times(share - 1.0, d));
    Opposite(share, (255 - alpha) as real);
    TimesSign(1.0 - share, (255 - alpha) as real);
    TimesSign(share - 1.0, (255 - alpha) as real);
  }

  lemma Opposite(share: real, d: real)
    ensures Times(share - 1.0, -d) == Times(1.0 - share, d) == -Times(share - 1.0, d)
  {
  }

  lemma TruncatedIs(x: real, end: int, missing: real)
    requires 0 <= end && x == end as real + missing
    ensures Truncated(x) == end <==> (if end > 0 then 0.0 <= missing else -1.0 < missing) && missing < 1.0
  {
  }

  lemma TimesLess(a: real, b: real)
    ensures Times(a - 1.0, b) == Times(a, b) - b
  {
  }

  lemma TimesSign(a: real, b: real)
    requires b >= 0.0
    ensures (a >= 0.0 ==> Times(a, b) >= 0.0) && (b == 0.0 ==> Times(a, b) == 0.0)
    ensures a < 0.0 && b > 0.0 ==> Times(a, b) < 0.0
  {
  }

  lemma TimesZero(a: real)
    ensures Times(a, 0.0) == 0.0
  {
  }

  lemma TimesOrder(a: real, b: real, c: real)
    requires 0.0 <= a && 0.0 <= b <= c
    ensures 0.0 <= Times(a, b) <= Times(a, c)
  {
    assert a * c == a * b + a * (c - b);
    assert a * b >= 0.0 && a * (c - b) >= 0.0;
  }

  // However the machine rounds, an opaque colour comes out if no channel exceeds
  // its own by more than 255 parts in 256 of a step, and does not if a channel
  // falls short by one part or exceeds by a whole step.
  lemma UpperAloneRounded(c: Color, share: real, rnd: Rounding)
    requires IsColor(c) && c.alpha == 255 && Rounds(rnd)
    ensures
      var largest := Largest(c) as real;
      (Largest(c) == 0 || (share >= 1.0 && Times(share - 1.0, largest) <= Fraction(255)) ==>
       Mix(BLACK, c, share, rnd) == c) &&
      (Times(1.0 - share, largest) >= Fraction(1) || Times(share - 1.0, largest) >= 1.0 ==>
       Mix(BLACK, c, share, rnd) != c)
  {
    hide Times, Channel, Rounds;
    var x := Largest(c);
    OpaqueStays(share, rnd);
    RoundedArrives(c.red, x, share, rnd);
    RoundedArrives(c.green, x, share, rnd);
    RoundedArrives(c.blue, x, share, rnd);
    RoundedMisses(x, share, rnd);
  }

  lemma OpaqueStays(share: real, rnd: Rounding)
    requires Rounds(rnd)
    ensures Channel(255, 255, share, rnd) == 255 && Channel(0, 0, share, rnd) == 0
  {
    hide Times, Rounds;
    TimesZero(share);
    AddedWithin(255, Times(share, 0.0), 0, 0, rnd);
    AddedWithin(0, Times(share, 0.0), 0, 0, rnd);
  }

  lemma RoundedArrives(x: int, largest: int, share: real, rnd: Rounding)
    requires 0 <= x <= largest < 256 && Rounds(rnd)
    ensures share >= 1.0 && Times(share - 1.0, largest as real) <= Fraction(255) ==> Channel(0, x, share, rnd) == x
  {
    hide Times, Rounds;
    if share >= 1.0 && Times(share - 1.0, largest as real) <= Fraction(255) {
      TimesOrder(share - 1.0, x as real, largest as real);
      TimesLess(share, x as real);
      AddedWithin(0, Times(share, (x - 0) as real), 256 * x, 256 * x + 255, rnd);
    }
  }

  lemma RoundedMisses(x: int, share: real, rnd: Rounding)
    requires 0 <= x < 256 && Rounds(rnd)
    ensures
      Times(1.0 - share, x as real) >= Fraction(1) || Times(share - 1.0, x as real) >= 1.0 ==>
      Channel(0, x, share, rnd) != x
  {
    hide Times, Rounds;
    var y := Times(share, (x - 0) as real);
    TimesLess(share, x as real);
    Opposite(share, x as real);
    if Times(1.0 - share, x as real) >= Fraction(1) {
      AddedAtMost(y, 256 * x - 1, rnd);
    } else if Times(share - 1.0, x as real) >= 1.0 {
      AddedAtLeast(y, 256 * x + 256, rnd);
    }
  }

  lemma AddedAtMost(y: real, k: int, rnd: Rounding)
    requires Rounds(rnd) && y <= Fraction(k) && -65536 <= k <= 65536
    ensures rnd(0.0 + rnd(y)) <= Fraction(k)
  {
    assert rnd(y) <= rnd(Fraction(k));
    assert rnd(0.0 + rnd(y)) <= rnd(Fraction(k));
  }

  lemma AddedAtLeast(y: real, k: int, rnd: Rounding)
    requires Rounds(rnd) && y >= Fraction(k) && -65536 <= k <= 65536
    ensures rnd(0.0 + rnd(y)) >= Fraction(k)
  {
    assert rnd(y) >= rnd(Fraction(k));
    assert rnd(0.0 + rnd(y)) >= rnd(Fraction(k));
  }

  // With a small share, as a bound not far away makes it, the colour turns black.
  lemma UpperAloneIsBlack(c: Color, share: real, rnd: Rounding)
    requires IsColor(c) && c.alpha == 255 && 0.0 <= share && Times(share, 256.0) < 1.0 && Rounds(rnd)
    ensures Mix(BLACK, c, share, rnd) == BLACK
  {
    hide Times, Channel, Rounds;
    StaysAtZero(c.red, share, rnd);
    StaysAtZero(c.green, share, rnd);
    StaysAtZero(c.blue, share, rnd);
    OpaqueStays(share, rnd);
  }

  lemma StaysAtZero(up: int, share: real, rnd: Rounding)
    requires 0 <= up < 256 && 0.0 <= share && Times(share, 256.0) < 1.0 && Rounds(rnd)
    ensures Channel(0, up, share, rnd) == 0
  {
    hide Times, Rounds;
    TimesPart(up, share);
    AddedWithin(0, Times(share, (up - 0) as real), 0, 255, rnd);
  }

  lemma TimesPart(up: int, share: real)
    requires 0 <= up < 256 && 0.0 <= share && Times(share, 256.0) < 1.0
    ensures 0.0 <= Times(share, up as real) <= Fraction(255)
  {
    TimesOrder(share, up as real, 255.0);
    assert share < 1.0 / 256.0;
  }

  // A red band alone. With the number above it red comes out, if beside the huge
  // distance a step is less than the machine can tell; with the number below it
  // black does, if the memory holds zero.
  lemma LoneBand(huge: real, eps: real, rnd: Rounding)
    requires huge > 0.0 && Absorbs(rnd, eps) && Times(256.0, 1.0) <= Times(eps, huge) && Rounds(rnd)
    ensures
      var red := Color(255, 0, 0, 255);
      var items := [Band(0, 0, 1.0, 2.0, Some(red), red)];
      Sides(items, 3.0, Some(0), None) && Sides(items, 0.0, None, Some(0)) &&
      (forall junk :: Blended(items, 3.0, huge, junk, rnd, Some(0), None) == (red, red)) &&
      Blended(items, 0.0, huge, 0.0, rnd, None, Some(0)) == (Color(0, 0, 0, 255), Color(0, 0, 0, 255))
  {
    hide Mix, Absorbs, Rounds;
    var red := Color(255, 0, 0, 255);
    var items := [Band(0, 0, 1.0, 2.0, Some(red), red)];
    assert Below(items[0], 3.0) && Above(items[0], 0.0);
    forall junk: real ensures Blended(items, 3.0, huge, junk, rnd, Some(0), None) == (red, red) {
      LowerAlone(items, 3.0, huge, junk, rnd, 0, red);
    }
    UpperAloneIsBlack(red, Share(items, 0.0, huge, 0.0, None, Some(0)), rnd);
  }

  lemma EqualHasColors(i: Item, val: real)
    requires Equal(i, val)
    ensures !i.Invalid?
  {
  }
}
