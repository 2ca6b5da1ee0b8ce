/** Cash-flow primitives of the energy hub model: yearly flows indexed 0..lifetime
    (year 0 holds CAPEX, years 1..lifetime hold OPEX or production), their net
    present value, and the electrolyser stack replacements added into them.
    Money and energy are real numbers; floating point is not modelled. */
module CashFlow {

  /** b raised to a natural power. */
  function Pow(b: real, k: nat): (p: real)
    ensures b == 1.0 ==> p == 1.0
    ensures b != 0.0 ==> p != 0.0
    ensures b > 0.0 ==> p > 0.0
  {
    if k == 0 then 1.0 else b * Pow(b, k - 1)
  }

  /** Plain sum of a flow. */
  function Sum(s: seq<real>): real
  {
    if |s| == 0 then 0.0 else Sum(s[..|s| - 1]) + s[|s| - 1]
  }

  /** Net present value of a flow at rate r: the sum over k of s[k] / (1 + r)^k. */
  function Npv(s: seq<real>, r: real): real
    requires 1.0 + r != 0.0
  {
    if |s| == 0 then 0.0 else Npv(s[..|s| - 1], r) + s[|s| - 1] / Pow(1.0 + r, |s| - 1)
  }

  /** The sum over k in 1..n of value / (1 + r)^k: the present value of value paid in each of years 1..n. */
  function Annuity(value: real, r: real, n: nat): real
    requires 1.0 + r != 0.0
  {
    if n == 0 then 0.0 else Annuity(value, r, n - 1) + value / Pow(1.0 + r, n)
  }

  /** A flow of length lifetime + 1: nothing in year 0, value in every year 1..lifetime. */
  function BuildFlow(value: real, lifetime: nat): seq<real>
  {
    seq(lifetime + 1, k => if k == 0 then 0.0 else value)
  }

  /** Element-wise difference of two flows of equal length. */
  function Difference(a: seq<real>, b: seq<real>): seq<real>
    requires |a| == |b|
  {
    seq(|a|, k requires 0 <= k < |a| => a[k] - b[k])
  }

  /** Whether the last stack-replacement year may coincide with the last project year. */
  datatype Boundary = Inclusive | Exclusive

  /** k is a multiple of l reached from 0 in steps of l (0, l, 2l, ...). */
  predicate Multiple(k: int, l: int)
    requires l > 0
    decreases k
  {
    if k <= 0 then k == 0 else Multiple(k - l, l)
  }

  /** Year k is a stack-replacement year: a positive multiple of the stack lifetime that lies
      within the horizon (up to and including it, or strictly before it). */
  predicate ReplacementYear(k: int, lifetimeStack: int, horizon: int, b: Boundary)
    requires lifetimeStack > 0
  {
    0 < k && Multiple(k, lifetimeStack) && (if b == Inclusive then k <= horizon else k < horizon)
  }

  /** Which years below m are replacement years. */
  function ReplacementMask(lifetimeStack: int, m: nat, horizon: int, b: Boundary): seq<bool>
    requires lifetimeStack > 0
  {
    seq(m, k => ReplacementYear(k, lifetimeStack, horizon, b))
  }

  /** The flow s with cost added in every year the mask marks. */
  function AddWhere(s: seq<real>, mask: seq<bool>, cost: real): seq<real>
    requires |mask| == |s|
  {
    seq(|s|, k requires 0 <= k < |s| => if mask[k] then s[k] + cost else s[k])
  }

  /** The flow s with cost added in every replacement year and every other year unchanged. */
  function WithReplacements(s: seq<real>, lifetimeStack: int, cost: real, horizon: int, b: Boundary): seq<real>
    requires lifetimeStack > 0
  {
    AddWhere(s, ReplacementMask(lifetimeStack, |s|, horizon, b), cost)
  }

  /** The present value of paying cost in every year the mask marks. */
  function MaskedValue(mask: seq<bool>, cost: real, r: real): real
    requires 1.0 + r != 0.0
  {
    if |mask| == 0 then 0.0
    else
      var n := |mask| - 1;
      MaskedValue(mask[..n], cost, r) + (if mask[n] then cost / Pow(1.0 + r, n) else 0.0)
  }

  /** The number of years the mask marks. */
  function Marked(mask: seq<bool>): nat
  {
    if |mask| == 0 then 0 else Marked(mask[..|mask| - 1]) + (if mask[|mask| - 1] then 1 else 0)
  }

  /** The present value of paying cost in every replacement year below m: the sum over those
      years k of cost / (1 + r)^k. */
  function ReplacementValue(r: real, lifetimeStack: int, cost: real, m: nat, horizon: int, b: Boundary): real
    requires 1.0 + r != 0.0 && lifetimeStack > 0
  {
    MaskedValue(ReplacementMask(lifetimeStack, m, horizon, b), cost, r)
  }

  /** The number of stack replacements within a horizon: the multiples l, 2l, ... that the
      boundary admits. */
  function ReplacementCount(lifetimeStack: int, horizon: nat, b: Boundary): nat
    requires lifetimeStack > 0
  {
    if b == Inclusive then horizon / lifetimeStack
    else if horizon == 0 then 0 else (horizon - 1) / lifetimeStack
  }

  // ---------------------------------------------------------------------------
  // The source's imperative primitives

  /** The discounting loop: accumulates c[k] / (1 + r)^k over every index of c. */
  method NpCalculator(c: array<real>, r: real) returns (netPresent: real)
    requires 1.0 + r != 0.0
    ensures netPresent == Npv(c[..], r)
  {
    netPresent := 0.0;
    for k := 0 to c.Length
      invariant netPresent == Npv(c[..k], r)
    {
      assert c[..k + 1][..k] == c[..k];
      netPresent := netPresent + c[k] / Pow(1.0 + r, k);
    }
    assert c[..c.Length] == c[..];
  }

  /** A fresh array of length lifetime + 1, zero in year 0 and value in years 1..lifetime. */
  method CostsProductionFlow(value: real, lifetime: nat) returns (flow: array<real>)
    ensures fresh(flow)
    ensures flow.Length == lifetime + 1 && flow[0] == 0.0
    ensures forall k :: 1 <= k <= lifetime ==> flow[k] == value
    ensures flow[..] == BuildFlow(value, lifetime)
  {
    flow := new real[lifetime + 1](_ => 0.0);
    forall k | 1 <= k <= lifetime {
      flow[k] := value;
    }
  }

  /** The stack-replacement loop: adds cost in years lifetimeStack * i for i = 1, 2, ... while that
      year is within the horizon (Inclusive for `<=`, Exclusive for `<`), in place. The loop keeps the
      year itself rather than i, stepping it by lifetimeStack. */
  method AddStackReplacements(flow: array<real>, lifetimeStack: int, cost: real, horizon: nat, b: Boundary)
    requires lifetimeStack > 0
    requires flow.Length == horizon + 1
    modifies flow
    ensures flow[..] == WithReplacements(old(flow[..]), lifetimeStack, cost, horizon, b)
  {
    forall k | 0 < k < lifetimeStack
      ensures !Multiple(k, lifetimeStack)
    {
    }
    var year := lifetimeStack;
    while if b == Inclusive then year <= horizon else year < horizon
      invariant year > 0 && Multiple(year, lifetimeStack) && year - lifetimeStack <= horizon
      invariant forall k :: 0 <= k < flow.Length ==>
        flow[k] == if ReplacementYear(k, lifetimeStack, horizon, b) && k < year
                   then old(flow[k]) + cost else old(flow[k])
      decreases horizon - year
    {
      flow[year] := flow[year] + cost;
      forall k | 0 < k < year + lifetimeStack && Multiple(k, lifetimeStack)
        ensures k <= year
      {
        NoMultipleBetween(k, year, lifetimeStack);
      }
      NextMultiple(year, lifetimeStack);
      year := year + lifetimeStack;
    }
  }

  /** A flow with capex in year 0 and opex in years 1..lifetime (the LCOE, LCOH and total-cost flows). */
  method CapexOpexFlow(capex: real, opex: real, lifetime: nat) returns (flow: array<real>)
    ensures fresh(flow)
    ensures flow.Length == lifetime + 1 && flow[0] == capex
    ensures forall k :: 1 <= k <= lifetime ==> flow[k] == opex
    ensures flow[..] == BuildFlow(opex, lifetime)[0 := capex]
  {
    flow := CostsProductionFlow(opex, lifetime);
    flow[0] := capex;
  }

  /** The NPV of the net cash flow: revenue in years 1..lifetime minus a cost flow holding capex
      in year 0, opex in years 1..lifetime and a stack replacement at each multiple of the stack
      lifetime strictly before the last year. */
  method ProjectNpv(revenueYear: real, opexYear: real, capex: real, lifetimeStack: int, stackCost: real,
                    lifetime: nat, r: real) returns (npv: real)
    requires 1.0 + r != 0.0 && lifetimeStack > 0
    ensures npv == Annuity(revenueYear, r, lifetime) - Annuity(opexYear, r, lifetime) - capex
                   - ReplacementValue(r, lifetimeStack, stackCost, lifetime + 1, lifetime, Exclusive)
  {
    var revenue := CostsProductionFlow(revenueYear, lifetime);
    var costs := CapexOpexFlow(capex, opexYear, lifetime);
    ghost var before := costs[..];
    AddStackReplacements(costs, lifetimeStack, stackCost, lifetime, Exclusive);
    var net := new real[lifetime + 1](k requires 0 <= k <= lifetime reads revenue, costs => revenue[k] - costs[k]);
    assert net[..] == Difference(revenue[..], costs[..]);
    npv := NpCalculator(net, r);
    NpvDifference(revenue[..], costs[..], r);
    NpvBuildFlow(revenueYear, lifetime, r);
    NpvWithReplacements(before, lifetimeStack, stackCost, lifetime, Exclusive, r);
    NpvCapexOpex(capex, opexYear, lifetime, r);
  }

  // ---------------------------------------------------------------------------
  // Arithmetic helpers for the replacement loop

  lemma MulStrictMono(l: int, a: int, b: int)
    requires l > 0
    ensures l * a < l * b <==> a < b
  {
    assert l * b - l * a == l * (b - a);
  }

  lemma DivModUnique(a: int, l: int, q: int, rm: int)
    requires l > 0 && 0 <= rm < l && a == l * q + rm
    ensures a / l == q && a % l == rm
  {
    var q', r' := a / l, a % l;
    assert a == l * q' + r';
    MulStrictMono(l, q', q + 1);
    MulStrictMono(l, q, q' + 1);
    assert l * (q + 1) == l * q + l;
    assert l * (q' + 1) == l * q' + l;
  }

  lemma NextMultiple(year: int, l: int)
    requires l > 0 && year >= 0 && Multiple(year, l)
    ensures Multiple(year + l, l)
  {
    assert year + l - l == year;
  }

  /** The stepping definition of a multiple agrees with the remainder being zero. */
  lemma {:induction false} MultipleMod(k: nat, l: int)
    requires l > 0
    ensures Multiple(k, l) <==> k % l == 0
  {
    if k == 0 {
      DivModUnique(0, l, 0, 0);
    } else if k < l {
      DivModUnique(k, l, 0, k);
    } else {
      MultipleMod(k - l, l);
      var q, rem := (k - l) / l, (k - l) % l;
      assert k == l * (q + 1) + rem;
      DivModUnique(k, l, q + 1, rem);
    }
  }

  /** Between two consecutive multiples of l there is no other. */
  lemma NoMultipleBetween(k: int, year: int, l: int)
    requires l > 0 && k > 0 && year > 0 && Multiple(k, l) && Multiple(year, l) && k < year + l
    ensures k <= year
  {
    MultipleMod(k, l);
    MultipleMod(year, l);
    var q, q' := k / l, year / l;
    assert k == l * q && year == l * q';
    assert year + l == l * (q' + 1);
    MulStrictMono(l, q, q' + 1);
    MulStrictMono(l, q', q);
  }

  lemma DivAdd(a: real, c: real, p: real)
    requires p != 0.0
    ensures (a + c) / p == a / p + c / p
  {
  }

  lemma DivSub(a: real, c: real, p: real)
    requires p != 0.0
    ensures (a - c) / p == a / p - c / p
  {
  }

  // ---------------------------------------------------------------------------
  // Properties of the specification functions

  /** At rate zero the NPV is the plain sum of the flow. */
  lemma {:induction false} NpvZeroRate(s: seq<real>)
    ensures Npv(s, 0.0) == Sum(s)
  {
    if |s| > 0 {
      NpvZeroRate(s[..|s| - 1]);
    }
  }

  /** NPV is linear: the NPV of revenue minus costs is the NPV of revenue minus the NPV of costs. */
  lemma {:induction false} NpvDifference(a: seq<real>, b: seq<real>, r: real)
    requires |a| == |b| && 1.0 + r != 0.0
    ensures Npv(Difference(a, b), r) == Npv(a, r) - Npv(b, r)
  {
    if |a| > 0 {
      var n := |a| - 1;
      assert Difference(a, b)[..n] == Difference(a[..n], b[..n]);
      NpvDifference(a[..n], b[..n], r);
      var p := Pow(1.0 + r, n);
      DivSub(a[n], b[n], p);
    }
  }

  /** Changing year j of a flow to x changes its NPV by (x - s[j]) / (1 + r)^j. */
  lemma {:induction false} NpvUpdate(s: seq<real>, j: nat, x: real, r: real)
    requires j < |s| && 1.0 + r != 0.0
    ensures Npv(s[j := x], r) == Npv(s, r) + (x - s[j]) / Pow(1.0 + r, j)
  {
    var n := |s| - 1;
    var p := Pow(1.0 + r, j);
    if j == n {
      assert s[j := x][..n] == s[..n];
      DivAdd(s[j], x - s[j], p);
    } else {
      assert s[j := x][..n] == s[..n][j := x];
      NpvUpdate(s[..n], j, x, r);
    }
  }

  /** A flow of value in years 1..lifetime is worth the annuity of value over lifetime years. */
  lemma {:induction false} NpvBuildFlow(value: real, lifetime: nat, r: real)
    requires 1.0 + r != 0.0
    ensures Npv(BuildFlow(value, lifetime), r) == Annuity(value, r, lifetime)
  {
    var s := BuildFlow(value, lifetime);
    if lifetime == 0 {
      assert s[..0] == [] && s[0] == 0.0;
    } else {
      assert s[..lifetime] == BuildFlow(value, lifetime - 1);
      NpvBuildFlow(value, lifetime - 1, r);
    }
  }

  /** A flow with capex in year 0 and opex in years 1..lifetime is worth
      capex plus the annuity of opex. */
  lemma NpvCapexOpex(capex: real, opex: real, lifetime: nat, r: real)
    requires 1.0 + r != 0.0
    ensures Npv(BuildFlow(opex, lifetime)[0 := capex], r) == capex + Annuity(opex, r, lifetime)
  {
    NpvUpdate(BuildFlow(opex, lifetime), 0, capex, r);
    NpvBuildFlow(opex, lifetime, r);
  }

  /** Adding cost in the marked years adds the present value of those payments. */
  lemma {:induction false} NpvAddWhere(s: seq<real>, mask: seq<bool>, cost: real, r: real)
    requires |mask| == |s| && 1.0 + r != 0.0
    ensures Npv(AddWhere(s, mask, cost), r) == Npv(s, r) + MaskedValue(mask, cost, r)
  {
    if |s| > 0 {
      var n := |s| - 1;
      var w := AddWhere(s, mask, cost);
      assert w[..n] == AddWhere(s[..n], mask[..n], cost);
      NpvAddWhere(s[..n], mask[..n], cost, r);
      var p := Pow(1.0 + r, n);
      if mask[n] {
        DivAdd(s[n], cost, p);
      }
    }
  }

  /** Adding the stack replacements adds the present value of the replacement payments. */
  lemma NpvWithReplacements(s: seq<real>, lifetimeStack: int, cost: real, horizon: int, b: Boundary, r: real)
    requires 1.0 + r != 0.0 && lifetimeStack > 0
    ensures Npv(WithReplacements(s, lifetimeStack, cost, horizon, b), r)
            == Npv(s, r) + ReplacementValue(r, lifetimeStack, cost, |s|, horizon, b)
  {
    NpvAddWhere(s, ReplacementMask(lifetimeStack, |s|, horizon, b), cost, r);
  }

  /** Without discounting, the payments in the marked years add up to cost times their number. */
  lemma {:induction false} UndiscountedPayments(mask: seq<bool>, cost: real)
    ensures MaskedValue(mask, cost, 0.0) == cost * Marked(mask) as real
  {
    if |mask| > 0 {
      var n := |mask| - 1;
      UndiscountedPayments(mask[..n], cost);
      var c := Marked(mask[..n]) as real;
      assert cost * (c + 1.0) == cost * c + cost;
    }
  }

  /** The replacement years below m are the multiples of l in 1..top, where top is m - 1,
      or m - 2 when the boundary is exclusive and m reaches past the horizon. */
  lemma {:induction false} ReplacementYearsBelow(l: int, m: nat, horizon: nat, b: Boundary)
    requires l > 0 && m <= horizon + 1
    ensures Marked(ReplacementMask(l, m, horizon, b))
            == Multiples(if b == Exclusive && m == horizon + 1 then m - 2 else m - 1, l)
  {
    if m > 0 {
      assert ReplacementMask(l, m, horizon, b)[..m - 1] == ReplacementMask(l, m - 1, horizon, b);
      ReplacementYearsBelow(l, m - 1, horizon, b);
      MultipleMod(m - 1, l);
      StepOfQuotient(m - 1, l);
    }
  }

  /** The number of positive multiples of l up to top. */
  function Multiples(top: int, l: int): nat
    requires l > 0
  {
    if top <= 0 then 0 else top / l
  }

  lemma StepOfQuotient(k: nat, l: int)
    requires l > 0
    ensures k > 0 ==> (if k % l == 0 then k / l == (k - 1) / l + 1 else k / l == (k - 1) / l)
  {
    if k > 0 {
      var q, rem := (k - 1) / l, (k - 1) % l;
      assert k - 1 == l * q + rem;
      if rem + 1 == l {
        assert k == l * (q + 1) + 0;
        DivModUnique(k, l, q + 1, 0);
      } else {
        DivModUnique(k, l, q, rem + 1);
      }
    }
  }

  /** Over a whole flow of horizon + 1 years the replacement years number ReplacementCount:
      horizon / l of them with `<=`, (horizon - 1) / l with `<`. Together with SumAddWhere this gives
      the undiscounted total of WithReplacements, which is AddWhere with this mask. */
  lemma ReplacementsCounted(lifetimeStack: int, m: nat, horizon: nat, b: Boundary)
    requires lifetimeStack > 0 && m == horizon + 1
    ensures Marked(ReplacementMask(lifetimeStack, m, horizon, b)) == ReplacementCount(lifetimeStack, horizon, b)
  {
    ReplacementYearsBelow(lifetimeStack, m, horizon, b);
    if horizon == 0 || (b == Exclusive && horizon == 1) {
      DivModUnique(0, lifetimeStack, 0, 0);
    }
  }

  /** Adding cost in the marked years adds cost times their number to the plain sum. */
  lemma SumAddWhere(s: seq<real>, mask: seq<bool>, cost: real)
    requires |mask| == |s|
    ensures Sum(AddWhere(s, mask, cost)) == Sum(s) + cost * Marked(mask) as real
  {
    NpvAddWhere(s, mask, cost, 0.0);
    NpvZeroRate(s);
    NpvZeroRate(AddWhere(s, mask, cost));
    UndiscountedPayments(mask, cost);
  }

  /** The `<` loops never touch the last year; the `<=` loop touches it exactly when the horizon is a
      positive multiple of the stack lifetime. Every earlier year is treated alike by both. */
  lemma BoundariesDiffer(s: seq<real>, lifetimeStack: int, cost: real, horizon: nat)
    requires lifetimeStack > 0 && |s| == horizon + 1
    ensures WithReplacements(s, lifetimeStack, cost, horizon, Exclusive)[horizon] == s[horizon]
    ensures WithReplacements(s, lifetimeStack, cost, horizon, Inclusive)[horizon]
            == if horizon > 0 && horizon % lifetimeStack == 0 then s[horizon] + cost else s[horizon]
    ensures WithReplacements(s, lifetimeStack, cost, horizon, Exclusive)[..horizon]
            == WithReplacements(s, lifetimeStack, cost, horizon, Inclusive)[..horizon]
  {
    MultipleMod(horizon, lifetimeStack);
  }
}
