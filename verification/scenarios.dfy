/** The behaviour tests/tests.rs checks, replayed on the model. A handle that
    goes out of scope in a test is dropped from the registry at that point;
    each method promises the values the test asserts. */
module Scenarios {
  import opened Modifier
  import opened Slots
  import opened Handles
  import opened Stats
  import opened Ledger

  /** tests/tests.rs:4-7: a fresh stat reads its base value. */
  method BaseValue() returns (v: real)
    ensures v == 8.0
  {
    var env := new Registry();
    var stat := new Stat(8.0, 3);
    v := stat.Value(env);
  }

  /** tests/tests.rs:10-17: a flat modifier adds its amount while its handle is
      held, and stops counting once the handle is dropped. */
  method FlatModifier() returns (held: real, dropped: real)
    ensures held == 15.0 && dropped == 8.0
  {
    var stat, env := Setup(8.0, 3);
    var key, x := AddDefaultOk(stat, env, Flat(7.0), multiset{});
    GrowOne(x);
    held := ReadOne(stat, env, 8.0, x, Flat(7.0));
    DropKey(stat, env, key.value, multiset{}, x);
    dropped := ReadNone(stat, env);
  }

  /** tests/tests.rs:20-27: a percentage addition scales by one plus its amount. */
  method PercentAddModifier() returns (held: real, dropped: real)
    ensures held == 15.0 && dropped == 10.0
  {
    var stat, env := Setup(10.0, 3);
    var key, x := AddDefaultOk(stat, env, PercentAdd(0.5), multiset{});
    GrowOne(x);
    held := ReadOne(stat, env, 10.0, x, PercentAdd(0.5));
    DropKey(stat, env, key.value, multiset{}, x);
    dropped := ReadNone(stat, env);
  }

  /** tests/tests.rs:30-37: a direct multiplication scales by its amount itself. */
  method PercentMultiplyModifier() returns (held: real, dropped: real)
    ensures held == 5.0 && dropped == 10.0
  {
    var stat, env := Setup(10.0, 3);
    var key, x := AddDefaultOk(stat, env, PercentMultiply(0.5), multiset{});
    GrowOne(x);
    held := ReadOne(stat, env, 10.0, x, PercentMultiply(0.5));
    DropKey(stat, env, key.value, multiset{}, x);
    dropped := ReadNone(stat, env);
  }

  /** tests/tests.rs:40-50: at their default orders a flat amount is applied
      before a percentage addition, and that before a direct multiplication. */
  method AllModifiers() returns (held: real, dropped: real)
    ensures held == 25.0 && dropped == 10.0
  {
    var stat, env := Setup(10.0, 3);
    var keyFlat, keyAdd, keyMultiply;
    ghost var x, y, z;
    held, keyFlat, keyAdd, keyMultiply, x, y, z := AllModifiersHeld(stat, env);
    DropThree(stat, env, keyFlat, keyAdd, keyMultiply, x, y, z);
    dropped := ReadNone(stat, env);
  }

  /** tests/tests.rs:42-47, while the three handles are held. */
  method AllModifiersHeld(stat: Stat, env: Registry)
    returns (held: real, hx: HandleId, hy: HandleId, hz: HandleId, ghost x: Slot, ghost y: Slot, ghost z: Slot)
    requires Settled(stat, env, multiset{}) && stat.slots.Length == 3 && stat.baseValue == 10.0
    modifies stat`cache, stat`seen, stat.slots, env
    ensures held == 25.0
    ensures Settled(stat, env, multiset{x, y, z}) && x.Some? && y.Some? && z.Some?
    ensures x.value.handle == hx < y.value.handle == hy < z.value.handle == hz
  {
    hx, hy, hz, x, y, z := AddThree(stat, env, Flat(90.0), PercentAdd(-0.5), PercentMultiply(0.5));
    held := ReadThree(stat, env, 10.0, x, y, z, Flat(90.0), PercentAdd(-0.5), PercentMultiply(0.5));
  }

  /** Three modifiers added at their default orders, each taking a slot. */
  method AddThree(stat: Stat, env: Registry, a: StatModifier, b: StatModifier, c: StatModifier)
    returns (hx: HandleId, hy: HandleId, hz: HandleId, ghost x: Slot, ghost y: Slot, ghost z: Slot)
    requires Settled(stat, env, multiset{}) && stat.slots.Length == 3
    modifies stat`cache, stat`seen, stat.slots, env
    ensures Settled(stat, env, multiset{x, y, z})
    ensures x == Some(ModifierMeta(a, DefaultOrder(a), hx))
    ensures y == Some(ModifierMeta(b, DefaultOrder(b), hy))
    ensures z == Some(ModifierMeta(c, DefaultOrder(c), hz))
    ensures hx < hy < hz
  {
    var keyA, keyB, keyC;
    keyA, x := AddDefaultOk(stat, env, a, multiset{});
    GrowOne(x);
    keyB, y := AddDefaultOk(stat, env, b, multiset{x});
    GrowTwo(x, y);
    keyC, z := AddDefaultOk(stat, env, c, multiset{x, y});
    hx, hy, hz := keyA.value, keyB.value, keyC.value;
  }

  /** tests/tests.rs:53-64: explicit orders override the default ones. */
  method AllModifiersReverseOrder() returns (held: real, dropped: real)
    ensures held == 10.0 && dropped == 10.0
  {
    var stat, env := Setup(10.0, 3);
    var keyMultiply, keyAdd, keyFlat;
    ghost var x, y, z;
    held, keyMultiply, keyAdd, keyFlat, x, y, z := ReverseOrderHeld(stat, env);
    DropThree(stat, env, keyMultiply, keyAdd, keyFlat, x, y, z);
    dropped := ReadNone(stat, env);
  }

  /** tests/tests.rs:55-62, while the three handles are held. */
  method ReverseOrderHeld(stat: Stat, env: Registry)
    returns (held: real, hx: HandleId, hy: HandleId, hz: HandleId, ghost x: Slot, ghost y: Slot, ghost z: Slot)
    requires Settled(stat, env, multiset{}) && stat.slots.Length == 3 && stat.baseValue == 10.0
    modifies stat`cache, stat`seen, stat.slots, env
    ensures held == 10.0
    ensures Settled(stat, env, multiset{x, y, z}) && x.Some? && y.Some? && z.Some?
    ensures x.value.handle == hx < y.value.handle == hy < z.value.handle == hz
  {
    hx, hy, hz, x, y, z := AddThreeAt(stat, env, PercentMultiply(0.5), PercentAdd(0.5), Flat(2.5));
    held := ReadThree(stat, env, 10.0, x, y, z, PercentMultiply(0.5), PercentAdd(0.5), Flat(2.5));
  }

  /** Three modifiers added at the explicit orders 0, 1 and 2. */
  method AddThreeAt(stat: Stat, env: Registry, a: StatModifier, b: StatModifier, c: StatModifier)
    returns (hx: HandleId, hy: HandleId, hz: HandleId, ghost x: Slot, ghost y: Slot, ghost z: Slot)
    requires Settled(stat, env, multiset{}) && stat.slots.Length == 3
    modifies stat`cache, stat`seen, stat.slots, env
    ensures Settled(stat, env, multiset{x, y, z})
    ensures x == Some(ModifierMeta(a, 0, hx))
    ensures y == Some(ModifierMeta(b, 1, hy))
    ensures z == Some(ModifierMeta(c, 2, hz))
    ensures hx < hy < hz
  {
    var keyA, keyB, keyC;
    keyA, x := AddOk(stat, env, a, 0, multiset{});
    GrowOne(x);
    keyB, y := AddOk(stat, env, b, 1, multiset{x});
    GrowTwo(x, y);
    keyC, z := AddOk(stat, env, c, 2, multiset{x, y});
    hx, hy, hz := keyA.value, keyB.value, keyC.value;
  }

  /** Three handles issued in a row leave scope, the last one first. */
  method DropThree(st: Stat, env: Registry, hx: HandleId, hy: HandleId, hz: HandleId,
                    ghost x: Slot, ghost y: Slot, ghost z: Slot)
    requires Settled(st, env, multiset{x, y, z})
    requires x.Some? && y.Some? && z.Some?
    requires x.value.handle == hx < y.value.handle == hy < z.value.handle == hz
    modifies env
    ensures Settled(st, env, multiset{})
  {
    GrowThree(x, y, z);
    DropKey(st, env, hz, multiset{x, y}, z);
    GrowTwo(x, y);
    DropKey(st, env, hy, multiset{x}, y);
    GrowOne(x);
    DropKey(st, env, hx, multiset{}, x);
  }

  /** tests/tests.rs:66-76: with two slots the third modifier is refused, and
      only the first two count. */
  method ToManyModifiers() returns (v: real, third: Result<HandleId, ModifiersFullError>)
    ensures v == 2.0 && third.Err?
  {
    var stat, env := Setup(0.0, 2);
    var first, x := AddDefaultOk(stat, env, Flat(1.0), multiset{});
    GrowOne(x);
    var second, y := AddOk(stat, env, Flat(1.0), 0, multiset{x});
    GrowTwo(x, y);
    third := AddFull(stat, env, Flat(1.0), 0, multiset{x, y});
    v := ReadEither(stat, env, 0.0, x, y, Flat(1.0), Flat(1.0));
  }

  /** tests/tests.rs:78-87: a dropped modifier's slot is reused. */
  method ArrayCleanup() returns (v: real)
    ensures v == 1.0
  {
    var stat, env := Setup(0.0, 1);
    var first, x := AddDefaultOk(stat, env, Flat(1.0), multiset{});
    DropKey(stat, env, first.value, multiset{}, x);
    var second, y := AddDefaultOk(stat, env, Flat(1.0), multiset{});
    GrowOne(y);
    v := ReadOne(stat, env, 0.0, y, Flat(1.0));
  }

  /** tests/tests.rs:89-105, while the first two handles are held. */
  method AllFirstScope(stat: Stat, env: Registry) returns (one: real, two: real)
    requires Settled(stat, env, multiset{}) && stat.slots.Length == 2 && stat.baseValue == 0.0
    modifies stat`cache, stat`seen, stat.slots, env
    ensures one == 1.0 && two == 2.0
    ensures Settled(stat, env, multiset{})
  {
    var first, x := AddDefaultOk(stat, env, Flat(1.0), multiset{});
    GrowOne(x);
    one := ReadOne(stat, env, 0.0, x, Flat(1.0));
    var second, y := AddDefaultOk(stat, env, PercentMultiply(2.0), multiset{x});
    GrowTwo(x, y);
    two := ReadTwo(stat, env, 0.0, x, y, Flat(1.0), PercentMultiply(2.0));
    DropKey(stat, env, second.value, multiset{x}, y);
    GrowOne(x);
    DropKey(stat, env, first.value, multiset{}, x);
  }

  /** tests/tests.rs:89-105, once the first two handles are gone. */
  method AllSecondScope(stat: Stat, env: Registry)
    returns (five: real, fourteen: real, refused: Result<HandleId, ModifiersFullError>)
    requires Settled(stat, env, multiset{}) && stat.slots.Length == 2 && stat.baseValue == 0.0
    modifies stat`cache, stat`seen, stat.slots, env
    ensures five == 5.0 && fourteen == 14.0 && refused.Err?
  {
    var first, x := AddDefaultOk(stat, env, Flat(5.0), multiset{});
    GrowOne(x);
    five := ReadOne(stat, env, 0.0, x, Flat(5.0));
    var second, y := AddDefaultOk(stat, env, Flat(9.0), multiset{x});
    GrowTwo(x, y);
    fourteen := ReadEither(stat, env, 0.0, x, y, Flat(5.0), Flat(9.0));
    refused := AddDefaultFull(stat, env, Flat(9.0), multiset{x, y});
  }

  /** tests/tests.rs:89-105: values as modifiers come and go, and a full stat
      refuses another. */
  method All() returns (one: real, two: real, none: real, five: real, fourteen: real,
                        refused: Result<HandleId, ModifiersFullError>)
    ensures one == 1.0 && two == 2.0 && none == 0.0 && five == 5.0 && fourteen == 14.0
    ensures refused.Err?
  {
    var stat, env := Setup(0.0, 2);
    one, two := AllFirstScope(stat, env);
    none := ReadNone(stat, env);
    five, fourteen, refused := AllSecondScope(stat, env);
  }

  /** tests/tests.rs:107-123: a shadowed handle is still held until its scope
      ends, so its modifier keeps counting until then. */
  method KeyShadowing() returns (both: real, one: real, none: real)
    ensures both == 2.0 && one == 1.0 && none == 0.0
  {
    var stat, env := Setup(0.0, 2);
    var shadowed, x := AddDefaultOk(stat, env, Flat(1.0), multiset{});
    GrowOne(x);
    var shadowing, y := AddDefaultOk(stat, env, Flat(1.0), multiset{x});
    GrowTwo(x, y);
    both := ReadEither(stat, env, 0.0, x, y, Flat(1.0), Flat(1.0));
    DropKey(stat, env, shadowing.value, multiset{x}, y);
    one := ReadOne(stat, env, 0.0, x, Flat(1.0));
    GrowOne(x);
    DropKey(stat, env, shadowed.value, multiset{}, x);
    none := ReadNone(stat, env);
  }
}
