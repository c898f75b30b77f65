/** What scaling means: amounts in a token's own units against amounts in units of 18 decimals. */
module BridgeUnits {
  import opened Bytes
  import opened BridgeSpec

  /** The powers of ten. */
  lemma {:induction false} PowersOfTen(a: nat, b: nat)
    ensures Pow10(0) == 1 && Pow10(1) == 10
    ensures Pow10(a + b) == Pow10(a) * Pow10(b)
  {
    assert Pow10(1) == 10 * Pow10(0);
    if a > 0 {
      PowersOfTen(a - 1, b);
      TimesTen(Pow10(a - 1), Pow10(b));
    }
  }

  lemma TimesTen(a: nat, b: nat)
    ensures (10 * a) * b == 10 * (a * b)
  {
  }

  /** `scaled` in 18 decimals is exactly `units` of a token with so many decimals. */
  predicate Worth(scaled: nat, units: nat, decimals: nat) {
    scaled * Pow10(decimals) == units * Pow10(18)
  }

  /** The most units of the token that `scaled` in 18 decimals is worth. */
  predicate MostUnits(units: nat, scaled: nat, decimals: nat) {
    units * Pow10(18) <= scaled * Pow10(decimals) < (units + 1) * Pow10(18)
  }

  lemma ScaleSplits(decimals: nat)
    requires decimals <= 18
    ensures Scale(decimals) * Pow10(decimals) == Pow10(18)
  {
    PowersOfTen(18 - decimals, decimals);
  }

  /** Scaling up a deposit loses nothing. */
  lemma ScaledUp(units: nat, decimals: nat)
    requires decimals <= 18
    ensures Worth(units * Scale(decimals), units, decimals)
  {
    ScaleSplits(decimals);
    Regroup(units, Scale(decimals), Pow10(decimals));
  }

  lemma Regroup(a: nat, b: nat, c: nat)
    ensures (a * b) * c == a * (b * c)
  {
  }

  /** Scaling down pays the most units there are. */
  lemma ScaledDown(scaled: nat, decimals: nat)
    requires decimals <= 18
    ensures MostUnits(Unscaled(scaled, decimals), scaled, decimals)
  {
    ScaleSplits(decimals);
    QuotientSplits(scaled, Scale(decimals));
    MostIs(Unscaled(scaled, decimals), scaled, Remainder(scaled, Scale(decimals)), Scale(decimals), Pow10(decimals),
           Pow10(18));
  }

  lemma MostIs(q: nat, n: nat, r: nat, f: nat, t: nat, h: nat)
    requires n == q * f + r && r < f && t > 0 && f * t == h
    ensures q * h <= n * t < (q + 1) * h
  {
    Regroup(q, f, t);
    assert n * t == q * h + r * t;
    assert r * t < f * t;
    assert (q + 1) * h == q * h + h;
  }

  /** No larger number of units is worth that little. */
  lemma MostIsMost(units: nat, scaled: nat, decimals: nat, more: nat)
    requires MostUnits(units, scaled, decimals) && more > units
    ensures more * Pow10(18) > scaled * Pow10(decimals)
  {
    Grows(units + 1, more, Pow10(18));
  }

  lemma Grows(a: nat, b: nat, f: nat)
    requires a <= b
    ensures a * f <= b * f
  {
  }

  lemma HoldsMost(held: nat, scaled: nat, decimals: nat)
    requires decimals <= 18 && held >= Unscaled(scaled, decimals)
    ensures forall units :: MostUnits(units, scaled, decimals) ==> held >= units
  {
    ScaledDown(scaled, decimals);
    forall units | MostUnits(units, scaled, decimals)
      ensures held >= units
    {
      MostIsOne(Unscaled(scaled, decimals), units, scaled, decimals);
    }
  }

  lemma MostIsOne(units: nat, units': nat, scaled: nat, decimals: nat)
    requires MostUnits(units, scaled, decimals) && MostUnits(units', scaled, decimals)
    ensures units == units'
  {
    if units < units' {
      MostIsMost(units, scaled, decimals, units');
    } else if units' < units {
      MostIsMost(units', scaled, decimals, units);
    }
  }

  /** An account in 18 decimals, in the token's units. */
  lemma AccountInUnits(escrow: nat, rest: nat, gifts: nat, f: nat, decimals: nat)
    requires decimals <= 18 && f == Scale(decimals) && escrow * f == rest + gifts * f
    ensures escrow * Pow10(18) == rest * Pow10(decimals) + gifts * Pow10(18)
  {
    ScaleSplits(decimals);
    Multiplied(escrow, rest, gifts, f, Pow10(decimals), Pow10(18));
  }

  lemma Multiplied(escrow: nat, rest: nat, gifts: nat, f: nat, t: nat, h: nat)
    requires escrow * f == rest + gifts * f && f * t == h
    ensures escrow * h == rest * t + gifts * h
  {
    Regroup(escrow, f, t);
    Regroup(gifts, f, t);
    Adds(rest, gifts * f, t);
  }

  lemma Adds(a: nat, b: nat, t: nat)
    ensures (a + b) * t == a * t + b * t
  {
  }
}
