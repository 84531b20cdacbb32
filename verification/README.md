# game_stat in Dafny

A model of the modifier store of `Stat<M>` (src/stat.rs) and of the three value
transforms it applies (src/modifier.rs), with proofs of what the store promises.

A stat has a public base value, a cached value, and a fixed array of optional
slots. A slot holds a modifier, an integer order and a weak reference to the
handle its caller keeps. The model follows that shape:

- **Modifier** (`modifier.dfy`) is the enum and its two operations:
  - `Apply` returns the new value instead of updating it in place;
  - `DefaultOrder` gives 0, 1 or 2.
- **Handles** (`handles.dfy`) stands in for the reference-counted handles. A
  `Registry` object issues numbered handles and records which are still held.
  Dropping a handle (`Registry.Drop`) changes only the registry, never a stat.
  A slot whose handle is no longer held is *stale*.
- **Slots** (`slots.dfy`) is the slot array as a value. It holds:
  - the intended outcome of `order_modifiers`, a stable sort `Sort`;
  - what `apply_modifiers_to_value` leaves behind, `Reap`;
  - the fold of the live modifiers, `Compose`;
  - the value an array stands for, `Eval`: the base value with the live
    modifiers applied in ascending order, ties in slot order.
- **Stats** (`stat.dfy`) is the imperative core. `Stat` is a class with:
  - a slot `array` that is sorted, reaped and overwritten in place;
  - a `cache` field;
  - a ghost `seen` field, the handles that were live at the last recompute.

  Each method is proved against the functions of `Slots`. The in-place
  insertion sort equals `Sort` of the old array. The apply loop reaps stale
  slots and returns the fold of the live ones. Adding writes the first vacancy
  left by the update pass. `value()` recomputes only when a slot is stale.
- **Integrate** (`integrate.dfy`) holds the facts about
  `value_with_integrated_modifiers`. It covers which slots of the other stat
  are re-added, at which orders and under which handles, and what each re-add
  does to the receiving array.
- **Ledger** (`ledger.dfy`) and **Scenarios** (`scenarios.dfy`) replay the
  tests of tests/tests.rs:
  - a handle going out of scope is a `Registry.Drop`;
  - each test is a method whose `ensures` are the test's assertions;
  - `Ledger` states each call a test makes in terms of the bag of live
    modifiers (the *ledger*).

Some behaviours are kept as the code has them:
- Reassigning `baseValue` leaves the cache as it is until a recompute happens.
  `Stat.Value` returns the old cache whenever no slot is stale.
- `ValueWithBase` sorts and reaps the slots but does not write the cache. A
  later `Value` can therefore keep a cache that still counts a reaped modifier.
- `ValueWithIntegratedModifiers` leaves this stat with stale slots and a cache
  that counts the re-added modifiers. Re-adds beyond the free capacity fail
  silently.

The comparator of `order_modifiers` answers `Greater` for two empty slots
(src/stat.rs:293-295). The model sorts by the intended outcome: occupied slots
first, by ascending order, ties and empty slots keeping their relative
positions.

## Model

| member | source | states |
|---|---|---|
| Modifier.Apply | src/modifier.rs:10-16 | Flat(v) moves the value by exactly v, PercentAdd(v) adds v times the value to it, PercentMultiply(v) makes it v times itself |
| Modifier.DefaultOrder | src/modifier.rs:19-25 | the default order is 0 exactly for Flat, 1 exactly for PercentAdd and 2 exactly for PercentMultiply |
| Modifier.PercentMultiplyIsDirect | src/modifier.rs:13-14 | PercentMultiply(v) scales by v itself: it equals PercentAdd(v - 1) and differs from PercentAdd(v) on every non-zero value |
| Modifier.FlatAndMultiplyCommuteOnlyTrivially | src/modifier.rs:12-14 | the order of application matters: Flat(a) and PercentMultiply(v) give the same value in either order exactly when a is 0 or v is 1 |
| Handles.Registry.constructor | src/stat.rs:49-53 | a new registry has issued no handle and holds none |
| Handles.Registry.Mint | src/stat.rs:152 | a new handle is distinct from every handle issued before, is held, and is the only change |
| Handles.Registry.Drop | src/stat.rs:49-53 | dropping a handle removes exactly it from the held set; no stat is touched |
| Slots.SortIsArrangedPermutation | src/stat.rs:284-297 | the sort is a permutation (same multiset) and arranged: no slot belongs strictly before one on its left |
| Slots.SortIsStable | src/stat.rs:284-297 | slots of equal order keep their relative positions, and every slot after an empty one is empty |
| Slots.SortOfArranged | src/stat.rs:284-297 | sorting an already arranged array leaves it unchanged |
| Slots.ArrangedIsUnique | src/stat.rs:284-297 | two arrangements of the same occupied slots with pairwise distinct orders are equal, so distinct orders fix the order of application |
| Slots.SelectSort | src/stat.rs:272-278 | selecting from the sorted array is sorting the selection |
| Slots.SortKeepsVacancies | src/stat.rs:284-297 | sorting keeps the number of empty slots |
| Slots.SortedVacantAfterFirst | src/stat.rs:284-297 | in a sorted array every slot after the first empty one is empty |
| Slots.ReapEmptiesStale | src/stat.rs:299-309 | reaping leaves no stale slot, frees a slot whenever one was stale, and changes nothing when none was |
| Slots.ReapKeepsLive | src/stat.rs:299-309 | reaping keeps the live slots, in their order |
| Slots.RecomputeIsEval | src/stat.rs:272-281 | folding the live slots of the sorted array is the value of the array: live modifiers in ascending order |
| Slots.RecomputeKeepsEval | src/stat.rs:272-281 | sorting and reaping changes neither the value of the array nor its live contents, and leaves no stale slot |
| Slots.MaintainedKeepsEval | src/stat.rs:204-212 | the update pass keeps the value and the live contents, leaves no stale slot, keeps the length, and frees a slot when one was stale |
| Slots.EvalIgnoresUnobservedChange | src/stat.rs:204-212 | when handles were dropped or issued without leaving a stale slot, the array's value is unchanged, so keeping the cache is right |
| Slots.EvalOfNothingLive | src/stat.rs:125-134 | with no live slot, the value is the base value |
| Slots.DefaultOrderAppliesByKind | src/modifier.rs:19-25 | at default orders the value is the base with all live Flat, then all PercentAdd, then all PercentMultiply modifiers applied, each kind in slot order |
| Slots.EvalSplitsAt | src/stat.rs:214-216 | when one group of live slots has orders at most c and another has orders above c, the value of both is the second group applied on top of the value of the first |
| Slots.FirstVacant | src/stat.rs:147-150 | the first empty slot: None exactly when every slot is occupied, otherwise an empty position before which every slot is occupied |
| Slots.HighestOrderOf | src/stat.rs:244-248 | None exactly when every slot is empty; otherwise an order some occupied slot has and no occupied slot exceeds |
| Slots.HighestOrderOrZero | src/stat.rs:241-250 | an upper bound of every occupied slot's order that some occupied slot attains, or 0 when every slot is empty |
| Integrate.FillSelectsIssued | src/stat.rs:226-235 | after one more re-add, the slots observing the handles issued so far are the re-added slots in sorted order |
| Integrate.FillVacancies | src/stat.rs:231-234 | a re-add takes exactly one vacancy |
| Integrate.FillKeepsOwn | src/stat.rs:231-234 | a re-add leaves the receiving stat's own live modifiers (as a multiset) and their value unchanged |
| Integrate.FillKeepsOwnOrders | src/stat.rs:231-234 | a re-add raises no order of the receiving stat's own modifiers |
| Integrate.ReaddStep | src/stat.rs:226-235 | one re-add into the first vacancy keeps the integration state: issued slots, vacancies, own live modifiers, own value and own orders |
| Integrate.AddedAfterOwn | src/stat.rs:214-216 | when the re-added slots all have orders above the own ones, the value is the own value with the re-added modifiers applied on top, sorted |
| Integrate.IntegratedAfterOwn | src/stat.rs:231-234 | slots re-added at highest + 1 + order with orders of at least zero are applied after all own modifiers |
| Integrate.NegativeOrderComesFirst | src/stat.rs:233 | with an own Flat(1) at order 5 and a re-added PercentMultiply(2) at order -10 (so at -4), the value on base 0 is 1, not the 2 of applying the re-added modifier last |
| Integrate.ReleasedAreStale | src/stat.rs:221-223 | once the temporary handles are dropped, the slots re-added under them are stale |
| Integrate.FullIffNoVacancy | src/stat.rs:147-163 | with no stale slot, a stat is full exactly when it has no empty slot |
| Stats.OrderModifiers | src/stat.rs:284-297 | the array is sorted in place, and its new contents are Sort of the old ones |
| Stats.InsertLast | src/stat.rs:284-297 | one pass of the in-place sort inserts a[i] into the sorted prefix and leaves the rest as it was |
| Stats.ApplyModifiersToValue | src/stat.rs:299-309 | the array is reaped in place and the result is the fold of the live slots' modifiers in slot order |
| Stats.FindVacant | src/stat.rs:147-150 | the loop finds the first empty slot, or none |
| Stats.Stat.constructor | src/stat.rs:125-134 | every slot is empty and the cache is the base value, which is the value of an empty array |
| Stats.Stat.CalculateInternalValue | src/stat.rs:272-281 | the slots become sorted and reaped; the cache becomes the value of the old slots under the live handles; no stale slot is left |
| Stats.Stat.UpdateModifiers | src/stat.rs:204-212 | recomputes exactly when some slot is stale; otherwise the slots and the cache are unchanged |
| Stats.Stat.Value | src/stat.rs:254-257 | returns the cache after the update pass; the result is the value of the live modifiers whenever the cache was right and no dropped handle came back |
| Stats.Stat.ValueWithBase | src/stat.rs:261-268 | the live modifiers folded over the given base, in ascending order; the slots are sorted and reaped and the cache is not written |
| Stats.Stat.HighestOrder | src/stat.rs:241-250 | runs the update pass, then returns the highest order of an occupied slot, or 0 |
| Stats.Stat.AddModifierWithOrder | src/stat.rs:169-200 | fails, changing nothing, exactly when every slot is live; otherwise it issues a fresh held handle and writes the modifier at the given order into the first vacancy left by the update pass; the live contents grow by exactly that slot and the cache is right |
| Stats.Stat.AddModifier | src/stat.rs:138-166 | the same, at the modifier's default order |
| Stats.Stat.ValueWithIntegratedModifiers | src/stat.rs:218-237 | the other stat is brought up to date; min(occupied, vacancies) of its slots are re-added at highest + 1 + order; own live modifiers, own value and held handles are unchanged; the cache is left at the returned value; stale slots remain exactly when something was re-added; with non-negative orders the result is own value with the re-added modifiers on top |
| Stats.Stat.IntegrateFrom | src/stat.rs:219-235 | updates the other stat, takes this stat's highest order, and re-adds the other's occupied slots, keeping the integration state |
| Stats.Stat.AddIntegrated | src/stat.rs:225-235 | the loop re-adds the first min(occupied, vacancies) occupied slots under consecutive handles |
| Stats.Stat.IntegrateStep | src/stat.rs:226-234 | one pass of the loop keeps its invariant; a failed re-add is ignored |
| Stats.Stat.ReaddOne | src/stat.rs:231-234 | a re-add fails exactly when the room is used up; otherwise it takes the next handle and extends the integration state |
| Stats.IntegrationOutcome | src/stat.rs:218-237 | what the integration leaves: the re-added slots sorted, own live modifiers and own value unchanged, stale slots exactly when something was re-added |
| Stats.ReleaseAll | src/stat.rs:221-223 | dropping the temporary handles restores the held set |
| Stats.MaintainedFull | src/stat.rs:142-146 | the update pass leaves a vacancy exactly when some slot was not live, so dropped capacity is recycled |
| Stats.FillKeepsLive | src/stat.rs:151-158 | writing the new slot into a vacancy leaves no stale slot and grows the live contents by exactly that slot |
| Ledger.BagUpToIsSelection | src/stat.rs:299-309 | the bag of live modifiers counted slot by slot is the multiset of the live selection |
| Ledger.FullIffAllLive | src/stat.rs:147-150 | an array is full exactly when as many of its slots are live as it has slots |
| Ledger.LedgerCount | src/stat.rs:160-162 | a stat is full exactly when its ledger has as many modifiers as it has slots |
| Ledger.EvalByContents | src/stat.rs:272-281 | with distinct orders, the value is determined by the live modifiers alone, applied in ascending order |
| Ledger.SortOfPair | src/stat.rs:284-297 | sorting two slots keeps them or swaps them |
| Ledger.DropOne | src/stat.rs:49-53 | dropping the only handle of one live modifier takes exactly that modifier out of the ledger |
| Ledger.Setup | src/stat.rs:125-134 | a new stat and registry with an empty ledger |
| Ledger.AddOk | src/stat.rs:169-200 | adding into a stat that is not full returns the next handle and adds exactly the new slot to the ledger |
| Ledger.AddDefaultOk | src/stat.rs:138-166 | the same at the default order |
| Ledger.AddFull | src/stat.rs:192-194 | adding into a full stat fails and changes neither the ledger nor the registry (no handle issued, none dropped) |
| Ledger.AddDefaultFull | src/stat.rs:160-162 | the same at the default order |
| Ledger.ReadValue | src/stat.rs:254-257 | the value read is the value of the live slots |
| Ledger.Read | src/stat.rs:254-257 | with distinct orders, the value read is the ledger's modifiers folded in ascending order |
| Ledger.ReadNone | src/stat.rs:254-257 | with nothing live, the value read is the base value |
| Ledger.ReadOne | src/stat.rs:254-257 | with one live modifier, the value read is that modifier applied to the base value |
| Ledger.ReadTwo | src/stat.rs:254-257 | with two live modifiers at distinct orders, the lower is applied first |
| Ledger.ReadThree | src/stat.rs:254-257 | with three live modifiers at ascending orders, they are applied in that order |
| Ledger.ReadEither | src/stat.rs:254-257 | with two live modifiers, the value read applies them in one order or the other |
| Ledger.DropKey | src/stat.rs:49-53 | dropping the only handle of a modifier takes it out of the ledger and leaves the stat as it is |
| Scenarios.BaseValue | tests/tests.rs:4-7 | a fresh stat reads 8 |
| Scenarios.FlatModifier | tests/tests.rs:10-17 | Flat(7) on 8 reads 15 while held and 8 after the drop |
| Scenarios.PercentAddModifier | tests/tests.rs:20-27 | PercentAdd(0.5) on 10 reads 15, then 10 |
| Scenarios.PercentMultiplyModifier | tests/tests.rs:30-37 | PercentMultiply(0.5) on 10 reads 5, then 10 |
| Scenarios.AllModifiers | tests/tests.rs:40-50 | the three kinds at default orders on 10 read 25, then 10 |
| Scenarios.AllModifiersHeld | tests/tests.rs:42-47 | with the three handles held the stat reads 25 |
| Scenarios.AddThree | tests/tests.rs:43-46 | three default-order adds take three slots under ascending handles |
| Scenarios.AllModifiersReverseOrder | tests/tests.rs:53-64 | explicit orders 0, 1, 2 apply multiply, add, flat: 10 reads 10, then 10 |
| Scenarios.ReverseOrderHeld | tests/tests.rs:55-62 | with the three handles held the stat reads 10 |
| Scenarios.AddThreeAt | tests/tests.rs:56-60 | three adds at orders 0, 1 and 2 take three slots under ascending handles |
| Scenarios.DropThree | tests/tests.rs:48 | the three handles leaving scope empty the ledger |
| Scenarios.ToManyModifiers | tests/tests.rs:69-76 | the third add into two slots fails, and the stat reads 2 |
| Scenarios.ArrayCleanup | tests/tests.rs:80-87 | a dropped modifier's slot is reused, and the stat reads 1 |
| Scenarios.AllFirstScope | tests/tests.rs:92-97 | reads 1 with Flat(1), then 2 with PercentMultiply(2) added; both handles are then dropped |
| Scenarios.AllSecondScope | tests/tests.rs:99-104 | reads 5, then 14; a third add into the full stat fails |
| Scenarios.All | tests/tests.rs:90-105 | 1, 2, 0, 5 and 14 in turn, and the last add fails |
| Scenarios.KeyShadowing | tests/tests.rs:112-123 | reads 2, then 1 once the shadowing handle is dropped, then 0 at the end of scope |

## Left out

- The `Rc`/`Arc`/`Weak`, `RefCell`/`Mutex` aliases and the `sync` feature (src/stat.rs:3-47) are concurrency and interior-mutability plumbing. Handles are numbers in a `Registry`, and the "panics if refcell is borrowed" paths are not modelled.
- f32 arithmetic: values are reals, so rounding is not modelled, and neither are the `From<i32>`/`From<f32>` conversions (src/stat.rs:86-98).
- The serde attributes and defaults (src/stat.rs:64-84) are serialization. A deserialized stat would get cache 0.0 and empty slots.
- `Default` (src/stat.rs:112-116) is `new(0.0)`, which is `Stats.Stat.constructor` with base 0.
- Rust's own `sort_by` algorithm, and what it does with a comparator that is not a total order, are not modelled. `Slots.Sort` is a stable insertion sort with the intended outcome.
- Stats.Stat.ValueWithIntegratedModifiers: the doc comment (src/stat.rs:215) says the other stat's modifiers are all applied after this stat's own. The contract proves that only when the re-added slots have orders of at least zero. With a negative order, `highest + 1 + order` can fall at or below this stat's own orders; `Integrate.NegativeOrderComesFirst` gives an input where a re-added modifier is applied first.
- Stats.Stat.ValueWithIntegratedModifiers: `highest_order + 1 + modifier.order` is `i32` arithmetic (src/stat.rs:233). Orders are unbounded integers here, so the overflow is not modelled.
- Stats.Stat.AddIntegrated: the loop reads a snapshot sequence of the other stat's slots. The source holds a borrow of the other array instead. Nothing writes the other array during the loop, so the two agree.
- Ledger.ReadEither: says the two live modifiers are applied in one order or the other, not which. The tests that use it add modifiers that commute, so the value is pinned either way.
- src/lib.rs (re-exports), examples/daggers.rs and examples/clean_code.rs are not part of this model.
- The multithreaded test (tests/tests.rs:125-148) exercises concurrency and is not part of this model.
