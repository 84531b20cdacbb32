/** The value transforms a stat applies (src/modifier.rs).
    The source's f32 payloads and accumulator are modelled as reals. */
module Modifier {

  /** A modifier is an immutable value with no identity; `amount` is its payload. */
  datatype StatModifier =
    | Flat(amount: real)            // add (or, when negative, subtract) a flat amount
    | PercentAdd(amount: real)      // scale by 1 + amount
    | PercentMultiply(amount: real) // scale by amount itself, not by 1 + amount

  /** The value that results from applying `m` to `value`; the source updates its
      accumulator in place, here the new value is returned. */
  function Apply(m: StatModifier, value: real): (r: real)
    ensures m.Flat? ==> r - value == m.amount
    ensures m.PercentAdd? ==> r - value == value * m.amount
    ensures m.PercentMultiply? ==> r == value * m.amount
  {
    match m
    case Flat(v) => value + v
    case PercentAdd(v) => value * (1.0 + v)
    case PercentMultiply(v) => value * v
  }

  /** The order a modifier gets when the caller names none: flat amounts first,
      then percentage additions, then direct multiplications. */
  function DefaultOrder(m: StatModifier): (r: int)
    ensures 0 <= r <= 2
    ensures r == 0 <==> m.Flat?
    ensures r == 1 <==> m.PercentAdd?
    ensures r == 2 <==> m.PercentMultiply?
  {
    match m
    case Flat(_) => 0
    case PercentAdd(_) => 1
    case PercentMultiply(_) => 2
  }

  /** PercentMultiply(v) multiplies by v directly: it is PercentAdd(v - 1), and it
      differs from PercentAdd(v) on every non-zero value. */
  lemma PercentMultiplyIsDirect(v: real, x: real)
    ensures Apply(PercentMultiply(v), x) == Apply(PercentAdd(v - 1.0), x)
    ensures x != 0.0 ==> Apply(PercentMultiply(v), x) != Apply(PercentAdd(v), x)
  {
  }

  /** The order of application matters: a flat amount and a direct
      multiplication give the same value in either order only when the amount
      is zero or the factor is one. */
  lemma FlatAndMultiplyCommuteOnlyTrivially(a: real, v: real, x: real)
    ensures Apply(PercentMultiply(v), Apply(Flat(a), x)) == Apply(Flat(a), Apply(PercentMultiply(v), x))
            <==> a == 0.0 || v == 1.0
  {
    assert (x + a) * v - (x * v + a) == a * (v - 1.0);
    if a != 0.0 && v != 1.0 {
      var d := v - 1.0;
      assert a * d != 0.0;
    }
  }
}
