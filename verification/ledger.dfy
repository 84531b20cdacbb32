/** Bookkeeping for replaying a test on the model: the live modifiers of a
    stat, kept as a ledger, and the calls a test makes stated in its terms. */
module Ledger {
  import opened Modifier
  import opened Slots
  import opened Handles
  import opened Stats

  // What the live contents of a slot array say about it.

  /** A stat with only empty slots has no live modifier and has room. */
  lemma EmptySlots(s: seq<Slot>, live: set<HandleId>)
    requires forall i :: 0 <= i < |s| ==> s[i] == None
    ensures Select(s, Live(live)) == []
    ensures |s| > 0 ==> !Full(s, live)
  {
    SelectAllOrNone(s, Live(live));
    if |s| > 0 {
      assert !IsLive(s[0], live);
    }
  }

  /** The live modifiers of `s`, as a bag: what a test knows about a stat,
      counted slot by slot. It equals `multiset(Select(s, Live(live)))`
      (`LiveBagIsSelection`), but counts by index instead of by prefix, so that
      stating it in the methods below, which pass through many heap states,
      does not make the verifier unfold slices of the slot array at each one. */
  ghost function LiveBag(s: seq<Slot>, live: set<HandleId>): (r: multiset<Slot>)
    ensures |r| <= |s|
  {
    BagUpTo(s, live, |s|)
  }

  /** The live modifiers among the first `n` slots of `s`. */
  ghost function BagUpTo(s: seq<Slot>, live: set<HandleId>, n: nat): (r: multiset<Slot>)
    requires n <= |s|
    ensures |r| <= n
  {
    if n == 0 then multiset{}
    else BagUpTo(s, live, n - 1) + if IsLive(s[n - 1], live) then multiset{s[n - 1]} else multiset{}
  }

  /** The first `n` slots' bag holds exactly their live selection. */
  lemma {:induction false} BagUpToIsSelection(s: seq<Slot>, live: set<HandleId>, n: nat)
    requires n <= |s|
    ensures BagUpTo(s, live, n) == multiset(Select(s[..n], Live(live)))
  {
    if n > 0 {
      BagUpToIsSelection(s, live, n - 1);
      SelectionGrows(s, live, n);
    }
  }

  /** One more slot adds itself to the live selection when it is live, and
      nothing otherwise. */
  lemma SelectionGrows(s: seq<Slot>, live: set<HandleId>, n: nat)
    requires 0 < n <= |s|
    ensures multiset(Select(s[..n], Live(live)))
         == multiset(Select(s[..n - 1], Live(live)))
            + if IsLive(s[n - 1], live) then multiset{s[n - 1]} else multiset{}
  {
    var z := s[n - 1];
    assert s[..n] == s[..n - 1] + [z];
    SelectConcat(s[..n - 1], [z], Live(live));
    assert [z][..0] == [];
    assert Meets(z, Live(live)) == IsLive(z, live);
  }

  /** The bag holds exactly the live selection of the slots. */
  lemma LiveBagIsSelection(s: seq<Slot>, live: set<HandleId>)
    ensures LiveBag(s, live) == multiset(Select(s, Live(live)))
  {
    BagUpToIsSelection(s, live, |s|);
    assert s[..|s|] == s;
  }

  /** The array is full exactly when every slot is live, that is when it has
      as many live modifiers as slots. */
  lemma {:induction false} FullIffAllLive(s: seq<Slot>, live: set<HandleId>)
    ensures Full(s, live) <==> |Select(s, Live(live))| == |s|
    decreases |s|
  {
    if |s| > 0 {
      var n := |s| - 1;
      FullIffAllLive(s[..n], live);
      assert Full(s, live) <==> Full(s[..n], live) && IsLive(s[n], live) by {
        if Full(s[..n], live) && IsLive(s[n], live) {
          forall i | 0 <= i < |s| ensures IsLive(s[i], live) {
            if i < n {
              assert s[i] == s[..n][i];
            }
          }
        }
        if Full(s, live) {
          forall i | 0 <= i < n ensures IsLive(s[..n][i], live) {
            assert s[..n][i] == s[i];
          }
        }
      }
    }
  }

  /** A slot array whose live modifiers are those of `m` is full exactly when
      `m` has one modifier per slot. */
  lemma LedgerCount(s: seq<Slot>, live: set<HandleId>, m: multiset<Slot>)
    requires LiveBag(s, live) == m
    ensures Full(s, live) <==> |m| == |s|
  {
    FullIffAllLive(s, live);
    LiveBagIsSelection(s, live);
    assert |Select(s, Live(live))| == |multiset(Select(s, Live(live)))| == |m|;
  }

  /** `t` lists occupied slots by strictly ascending order. */
  ghost predicate Ascending(t: seq<Slot>)
  {
    && Arranged(t) && (forall i :: 0 <= i < |t| ==> t[i].Some?)
    && (forall i, j :: 0 <= i < j < |t| ==> t[i].value.order != t[j].value.order)
  }

  lemma AscendingOne(x: Slot)
    requires x.Some?
    ensures Ascending([x])
  {
  }

  lemma AscendingTwo(x: Slot, y: Slot)
    requires x.Some? && y.Some? && x.value.order < y.value.order
    ensures Ascending([x, y])
  {
  }

  lemma AscendingThree(x: Slot, y: Slot, z: Slot)
    requires x.Some? && y.Some? && z.Some?
    requires x.value.order < y.value.order < z.value.order
    ensures Ascending([x, y, z])
  {
  }

  /** Live modifiers at pairwise distinct orders fix the value: it is their fold
      in ascending order, whatever slots they sit in. */
  lemma EvalByContents(s: seq<Slot>, live: set<HandleId>, base: real, t: seq<Slot>)
    requires multiset(Select(s, Live(live))) == multiset(t) && Ascending(t)
    ensures Eval(s, live, base) == Compose(t, base)
  {
    var l := Select(s, Live(live));
    SortIsArrangedPermutation(l);
    ArrangedIsUnique(Sort(l), t);
  }

  /** Two live modifiers are applied in one order or the other. */
  lemma EvalOfPair(s: seq<Slot>, live: set<HandleId>, base: real, t: seq<Slot>)
    requires multiset(Select(s, Live(live))) == multiset(t) && |t| == 2
    ensures Eval(s, live, base) == Compose(t, base) || Eval(s, live, base) == Compose([t[1], t[0]], base)
  {
    SortOfPair(Select(s, Live(live)), t);
  }

  /** Sorting two slots leaves them as they are or swaps them. */
  lemma SortOfPair(l: seq<Slot>, t: seq<Slot>)
    requires multiset(l) == multiset(t) && |t| == 2
    ensures Sort(l) == t || Sort(l) == [t[1], t[0]]
  {
    SortIsArrangedPermutation(l);
    var u := Sort(l);
    assert |u| == |multiset(u)| == |multiset(t)| == 2;
    assert u == [u[0], u[1]];
    assert t == [t[0], t[1]];
    assert multiset(u) == multiset{t[0], t[1]};
    PairIsEitherOrder(u, t[0], t[1]);
  }

  /** A sequence holding `x` and `y` and nothing else is `[x, y]` or `[y, x]`. */
  lemma PairIsEitherOrder(u: seq<Slot>, x: Slot, y: Slot)
    requires multiset(u) == multiset{x, y} && u == [u[0], u[1]]
    ensures u == [x, y] || u == [y, x]
  {
    assert u[0] in multiset(u) && u[1] in multiset(u);
    assert x in multiset(u) && y in multiset(u);
  }

  /** Every modifier counted among the first `n` slots is live. */
  lemma {:induction false} BagHoldsLive(s: seq<Slot>, live: set<HandleId>, n: nat)
    requires n <= |s|
    ensures forall z :: z in BagUpTo(s, live, n) ==> IsLive(z, live)
  {
    if n > 0 {
      BagHoldsLive(s, live, n - 1);
    }
  }

  /** The live modifiers split into those under every handle but `h` and
      those under `h`. */
  lemma {:induction false} BagSplitsAtHandle(s: seq<Slot>, live: set<HandleId>, h: HandleId, n: nat)
    requires n <= |s|
    ensures BagUpTo(s, live, n) == BagUpTo(s, live - {h}, n) + BagUpTo(s, live * {h}, n)
  {
    if n > 0 {
      BagSplitsAtHandle(s, live, h, n - 1);
      var z := s[n - 1];
      assert IsLive(z, live) <==> IsLive(z, live - {h}) || IsLive(z, live * {h});
      assert !(IsLive(z, live - {h}) && IsLive(z, live * {h}));
    }
  }

  /** Dropping the only handle of modifier `x` takes exactly `x` out of the live
      modifiers. */
  lemma DropOne(s: seq<Slot>, live: set<HandleId>, h: HandleId, rest: multiset<Slot>, x: Slot)
    requires LiveBag(s, live) == rest + multiset{x}
    requires x.Some? && x.value.handle == h
    requires forall y :: y in rest ==> y.Some? && y.value.handle != h
    ensures LiveBag(s, live - {h}) == rest
  {
    BagSplitsAtHandle(s, live, h, |s|);
    var a, b := BagUpTo(s, live - {h}, |s|), BagUpTo(s, live * {h}, |s|);
    BagHoldsLive(s, live - {h}, |s|);
    BagHoldsLive(s, live * {h}, |s|);
    forall z ensures a[z] == rest[z] {
      assert (a + b)[z] == (rest + multiset{x})[z];
      if z.Some? && z.value.handle == h {
        assert z !in a && z !in rest;
      } else {
        assert z !in b && z != x;
      }
    }
    assert a == rest;
  }

  // The calls a test makes, as the test sees them. A stat is settled with
  // ledger `m` when it tracks the registry, its cache is right for the handles
  // held now, and its live modifiers are those of `m`.

  ghost predicate Settled(st: Stat, env: Registry, m: multiset<Slot>)
    reads st, st.slots, env
  {
    && st.Tracked(env) && st.Coherent() && env.live <= st.seen
    && LiveBag(st.slots[..], env.live) == m
  }

  /** `Stat::new` with a new registry: no modifier, no handle. */
  method Setup(base: real, capacity: nat) returns (st: Stat, env: Registry)
    ensures fresh(st) && fresh(st.slots) && fresh(env)
    ensures st.baseValue == base && st.slots.Length == capacity
    ensures env.next == 0
    ensures Settled(st, env, multiset{})
  {
    env := new Registry();
    st := new Stat(base, capacity);
    EmptySlots(st.slots[..], env.live);
    LiveBagIsSelection(st.slots[..], env.live);
  }

  /** `add_modifier_with_order` with a free slot: the new modifier is live
      under the next handle. */
  method AddOk(st: Stat, env: Registry, mod: StatModifier, order: int, ghost m: multiset<Slot>)
    returns (res: Result<HandleId, ModifiersFullError>, ghost x: Slot)
    requires Settled(st, env, m) && |m| < st.slots.Length
    modifies st`cache, st`seen, st.slots, env
    ensures res == Ok(old(env.next)) && env.next == old(env.next) + 1
    ensures x == Some(ModifierMeta(mod, order, old(env.next)))
    ensures Settled(st, env, m + multiset{x})
  {
    x := Some(ModifierMeta(mod, order, env.next));
    ghost var before := Select(st.slots[..], Live(env.live));
    LedgerCount(st.slots[..], env.live, m);
    LiveBagIsSelection(st.slots[..], env.live);
    res := st.AddModifierWithOrder(mod, order, env);
    LiveBagIsSelection(st.slots[..], env.live);
    assert LiveBag(st.slots[..], env.live) == multiset(before) + multiset{x};
  }

  /** `add_modifier` with a free slot: `AddOk` at the modifier's default order. */
  method AddDefaultOk(st: Stat, env: Registry, mod: StatModifier, ghost m: multiset<Slot>)
    returns (res: Result<HandleId, ModifiersFullError>, ghost x: Slot)
    requires Settled(st, env, m) && |m| < st.slots.Length
    modifies st`cache, st`seen, st.slots, env
    ensures res == Ok(old(env.next)) && env.next == old(env.next) + 1
    ensures x == Some(ModifierMeta(mod, DefaultOrder(mod), old(env.next)))
    ensures Settled(st, env, m + multiset{x})
  {
    x := Some(ModifierMeta(mod, DefaultOrder(mod), env.next));
    ghost var before := Select(st.slots[..], Live(env.live));
    LedgerCount(st.slots[..], env.live, m);
    LiveBagIsSelection(st.slots[..], env.live);
    res := st.AddModifier(mod, env);
    LiveBagIsSelection(st.slots[..], env.live);
    assert LiveBag(st.slots[..], env.live) == multiset(before) + multiset{x};
  }

  /** `add_modifier_with_order` when every slot holds a live modifier: an error,
      and nothing changes. */
  method AddFull(st: Stat, env: Registry, mod: StatModifier, order: int, ghost m: multiset<Slot>)
    returns (res: Result<HandleId, ModifiersFullError>)
    requires Settled(st, env, m) && |m| == st.slots.Length
    modifies st`cache, st`seen, st.slots, env
    ensures res.Err? && env.next == old(env.next) && env.live == old(env.live) && Settled(st, env, m)
  {
    LedgerCount(st.slots[..], env.live, m);
    res := st.AddModifierWithOrder(mod, order, env);
  }

  /** `add_modifier` when every slot holds a live modifier. */
  method AddDefaultFull(st: Stat, env: Registry, mod: StatModifier, ghost m: multiset<Slot>)
    returns (res: Result<HandleId, ModifiersFullError>)
    requires Settled(st, env, m) && |m| == st.slots.Length
    modifies st`cache, st`seen, st.slots, env
    ensures res.Err? && env.next == old(env.next) && env.live == old(env.live) && Settled(st, env, m)
  {
    LedgerCount(st.slots[..], env.live, m);
    res := st.AddModifier(mod, env);
  }

  /** `value`: the fold of the live modifiers over the base value. */
  method ReadValue(st: Stat, env: Registry, ghost m: multiset<Slot>) returns (v: real)
    requires Settled(st, env, m)
    modifies st`cache, st`seen, st.slots
    ensures Settled(st, env, m)
    ensures v == Eval(st.slots[..], env.live, st.baseValue)
  {
    ghost var s := st.slots[..];
    v := st.Value(env);
    MaintainedKeepsEval(s, env.live, st.baseValue);
    LiveBagIsSelection(s, env.live);
    LiveBagIsSelection(st.slots[..], env.live);
  }

  /** `value`, when the live modifiers have pairwise distinct orders and `t`
      lists them by ascending order: their fold over the base value. */
  method Read(st: Stat, env: Registry, ghost t: seq<Slot>) returns (v: real)
    requires Settled(st, env, multiset(t)) && Ascending(t)
    modifies st`cache, st`seen, st.slots
    ensures Settled(st, env, multiset(t))
    ensures v == Compose(t, st.baseValue)
  {
    v := ReadValue(st, env, multiset(t));
    LiveBagIsSelection(st.slots[..], env.live);
    EvalByContents(st.slots[..], env.live, st.baseValue, t);
  }

  /** `value` with no live modifier: the base value. */
  method ReadNone(st: Stat, env: Registry) returns (v: real)
    requires Settled(st, env, multiset{})
    modifies st`cache, st`seen, st.slots
    ensures Settled(st, env, multiset{}) && v == st.baseValue
  {
    ghost var none: seq<Slot> := [];
    assert multiset(none) == multiset{};
    v := Read(st, env, none);
  }

  /** `value` with one live modifier: that modifier applied to the base value. */
  method ReadOne(st: Stat, env: Registry, base: real, ghost x: Slot, a: StatModifier) returns (v: real)
    requires st.baseValue == base && Settled(st, env, multiset{x}) && x.Some? && x.value.modifier == a
    modifies st`cache, st`seen, st.slots
    ensures Settled(st, env, multiset{x}) && v == Apply(a, base)
  {
    AscendingOne(x);
    assert multiset([x]) == multiset{x};
    v := Read(st, env, [x]);
    assert [x][..0] == [];
  }

  /** `value` with two live modifiers at distinct orders: the lower one first. */
  method ReadTwo(st: Stat, env: Registry, base: real, ghost x: Slot, ghost y: Slot, a: StatModifier, b: StatModifier)
    returns (v: real)
    requires st.baseValue == base && Settled(st, env, multiset{x, y}) && x.Some? && y.Some? && x.value.order < y.value.order
    requires x.value.modifier == a && y.value.modifier == b
    modifies st`cache, st`seen, st.slots
    ensures Settled(st, env, multiset{x, y}) && v == Apply(b, Apply(a, base))
  {
    AscendingTwo(x, y);
    assert multiset([x, y]) == multiset{x, y};
    v := Read(st, env, [x, y]);
    ComposePair(x, y, st.baseValue);
  }

  /** `value` with three live modifiers at ascending orders, applied in that order. */
  method ReadThree(st: Stat, env: Registry, base: real, ghost x: Slot, ghost y: Slot, ghost z: Slot,
                   a: StatModifier, b: StatModifier, c: StatModifier)
    returns (v: real)
    requires st.baseValue == base && Settled(st, env, multiset{x, y, z}) && x.Some? && y.Some? && z.Some?
    requires x.value.order < y.value.order < z.value.order
    requires x.value.modifier == a && y.value.modifier == b && z.value.modifier == c
    modifies st`cache, st`seen, st.slots
    ensures Settled(st, env, multiset{x, y, z}) && v == Apply(c, Apply(b, Apply(a, base)))
  {
    AscendingThree(x, y, z);
    assert multiset([x, y, z]) == multiset{x, y, z};
    v := Read(st, env, [x, y, z]);
    ComposeThree(x, y, z, st.baseValue);
  }

  /** `value` with two live modifiers, whatever their orders: applied in one
      order or the other. */
  method ReadEither(st: Stat, env: Registry, base: real, ghost x: Slot, ghost y: Slot, a: StatModifier, b: StatModifier)
    returns (v: real)
    requires st.baseValue == base && Settled(st, env, multiset{x, y}) && x.Some? && y.Some?
    requires x.value.modifier == a && y.value.modifier == b
    modifies st`cache, st`seen, st.slots
    ensures Settled(st, env, multiset{x, y})
    ensures v == Apply(b, Apply(a, base)) || v == Apply(a, Apply(b, base))
  {
    v := ReadValue(st, env, multiset{x, y});
    LiveBagIsSelection(st.slots[..], env.live);
    assert multiset([x, y]) == multiset{x, y};
    EvalOfPair(st.slots[..], env.live, st.baseValue, [x, y]);
    ComposePair(x, y, st.baseValue);
    ComposePair(y, x, st.baseValue);
  }

  /** The last holder of handle `h` lets it go: its modifier `x`, the last one
      added, no longer counts. */
  method DropKey(st: Stat, env: Registry, h: HandleId, ghost rest: multiset<Slot>, ghost x: Slot)
    requires Settled(st, env, rest + multiset{x})
    requires x.Some? && x.value.handle == h
    requires forall y :: y in rest ==> y.Some? && y.value.handle != h
    modifies env
    ensures Settled(st, env, rest) && env.next == old(env.next)
  {
    DropOne(st.slots[..], env.live, h, rest, x);
    env.Drop(h);
  }

  /** The fold of two modifiers, the first one first. */
  lemma ComposePair(a: Slot, b: Slot, v: real)
    ensures Compose([a, b], v) == Step(b, Step(a, v))
  {
    assert [a, b][..1] == [a] && [a][..0] == [];
    assert Compose([a], v) == Step(a, v);
  }

  /** The fold of three modifiers, in order. */
  lemma ComposeThree(a: Slot, b: Slot, c: Slot, v: real)
    ensures Compose([a, b, c], v) == Step(c, Step(b, Step(a, v)))
  {
    assert [a, b, c][..2] == [a, b];
    ComposePair(a, b, v);
  }

  /** Ledgers grow one modifier at a time. */
  lemma GrowOne(x: Slot)
    ensures multiset{} + multiset{x} == multiset{x}
  {
  }

  lemma GrowTwo(x: Slot, y: Slot)
    ensures multiset{x} + multiset{y} == multiset{x, y}
  {
  }

  lemma GrowThree(x: Slot, y: Slot, z: Slot)
    ensures multiset{x, y} + multiset{z} == multiset{x, y, z}
  {
  }
}
