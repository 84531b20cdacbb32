/** The stat itself (src/stat.rs): a base value, a cached value, and a fixed
    array of optional modifier slots that is sorted, reaped and overwritten in
    place. Each operation is proved against the functions of module Slots. */
module Stats {
  import opened Modifier
  import opened Slots
  import opened Handles
  import opened Integrate

  datatype Result<T, E> = Ok(value: T) | Err(error: E)

  /** The stat cannot hold any more modifiers. */
  datatype ModifiersFullError = ModifiersFullError

  // ---------------------------------------------------------------------------
  // The two passes of a recompute, in place on the slot array.

  /** Sorts the slots in place: occupied slots first, by ascending order, ties and
      empty slots keeping their relative positions. */
  method OrderModifiers(a: array<Slot>)
    modifies a
    ensures a[..] == Sort(old(a[..]))
  {
    ghost var s := a[..];
    var i := 0;
    while i < a.Length
      invariant 0 <= i <= a.Length
      invariant a[..i] == Sort(s[..i])
      invariant a[i..] == s[i..]
    {
      InsertLast(a, i);
      SortStep(s, i);
      i := i + 1;
    }
    assert a[..] == a[..a.Length] && s == s[..a.Length];
  }

  /** One pass of the insertion sort: moves `a[i]` left past every slot it
      belongs strictly before. */
  method InsertLast(a: array<Slot>, i: nat)
    requires i < a.Length
    modifies a
    ensures a[..i + 1] == Insert(old(a[..i]), old(a[i]))
    ensures a[i + 1..] == old(a[i + 1..])
  {
    var x := a[i];
    ghost var t := a[..i];
    assert t[..i] == t;
    var j := i;
    while j > 0 && Precedes(x, a[j - 1])
      invariant 0 <= j <= i
      invariant a[..j] == t[..j]
      invariant a[j + 1..i + 1] == t[j..]
      invariant a[i + 1..] == old(a[i + 1..])
      invariant Insert(t, x) == Insert(t[..j], x) + t[j..]
    {
      InsertShift(t, j, x);
      a[j] := a[j - 1];
      j := j - 1;
    }
    InsertAtStop(t, j, x);
    a[j] := x;
    assert a[..i + 1] == a[..j] + [x] + a[j + 1..i + 1];
  }

  lemma InsertShift(t: seq<Slot>, j: nat, x: Slot)
    requires 0 < j <= |t| && Precedes(x, t[j - 1])
    ensures Insert(t[..j], x) + t[j..] == Insert(t[..j - 1], x) + t[j - 1..]
  {
    assert t[..j][..j - 1] == t[..j - 1];
    assert Insert(t[..j], x) == Insert(t[..j - 1], x) + [t[j - 1]];
    assert t[j - 1..] == [t[j - 1]] + t[j..];
  }

  lemma InsertAtStop(t: seq<Slot>, j: nat, x: Slot)
    requires j <= |t| && (j == 0 || !Precedes(x, t[j - 1]))
    ensures Insert(t[..j], x) == t[..j] + [x]
  {
  }

  lemma SortStep(s: seq<Slot>, i: nat)
    requires i < |s|
    ensures Sort(s[..i + 1]) == Insert(Sort(s[..i]), s[i])
  {
    assert s[..i + 1][..i] == s[..i];
  }

  /** Folds the modifiers of the live slots over `value`, in slot order, and
      empties every stale slot on the way. */
  method ApplyModifiersToValue(a: array<Slot>, live: set<HandleId>, value: real) returns (v: real)
    modifies a
    ensures a[..] == Reap(old(a[..]), live)
    ensures v == Compose(Select(old(a[..]), Live(live)), value)
  {
    ghost var s := a[..];
    v := value;
    for i := 0 to a.Length
      invariant forall k :: 0 <= k < i ==> a[k] == if IsStale(s[k], live) then None else s[k]
      invariant forall k :: i <= k < a.Length ==> a[k] == s[k]
      invariant v == Compose(Select(s[..i], Live(live)), value)
    {
      SelectNext(s, i, Live(live));
      var o := a[i];
      assert o == s[i];
      if o.Some? && o.value.handle in live {
        ComposeSnoc(Select(s[..i], Live(live)), o, value);
        v := Apply(o.value.modifier, v);
      } else {
        assert Select(s[..i + 1], Live(live)) == Select(s[..i], Live(live));
        if o.Some? {
          a[i] := None;
        }
      }
    }
    assert s[..a.Length] == s;
  }

  lemma ComposeSnoc(t: seq<Slot>, x: Slot, v: real)
    ensures Compose(t + [x], v) == Step(x, Compose(t, v))
  {
    assert (t + [x])[..|t|] == t;
  }

  /** The first empty slot of the array, searched from the front. */
  method FindVacant(a: array<Slot>) returns (k: Option<nat>)
    ensures k == FirstVacant(a[..])
  {
    var i := 0;
    while i < a.Length && a[i].Some?
      invariant 0 <= i <= a.Length
      invariant forall j :: 0 <= j < i ==> a[j].Some?
    {
      i := i + 1;
    }
    if i < a.Length {
      k := Some(i);
    } else {
      k := None;
    }
    var f := FirstVacant(a[..]);
    if f.Some? && k.Some? {
      assert !(f.value < k.value) && !(k.value < f.value);
    }
  }

  // ---------------------------------------------------------------------------
  // The stat.

  class Stat {
    /** The caller's base value; a public field the caller may reassign. */
    var baseValue: real
    /** The value last computed by a recompute. */
    var cache: real
    /** The handles that were live when `cache` was last computed. */
    ghost var seen: set<HandleId>
    /** The modifier slots; their number is the stat's capacity. */
    const slots: array<Slot>

    /** The slots observe only handles `env` has issued. */
    ghost predicate Tracked(env: Registry)
      reads this, slots, env
    {
      env.Valid() && HandlesBelow(slots[..], env.next)
    }

    /** The cache is the value of the slots as they were at the last recompute. */
    ghost predicate Coherent()
      reads this, slots
    {
      !HasStale(slots[..], seen) && cache == Eval(slots[..], seen, baseValue)
    }

    /** A stat with no modifiers; its cache starts at the base value. */
    constructor (baseValue: real, capacity: nat)
      ensures this.baseValue == baseValue && cache == baseValue
      ensures fresh(slots) && slots.Length == capacity
      ensures forall i :: 0 <= i < capacity ==> slots[i] == None
      ensures seen == {} && Coherent()
    {
      this.baseValue := baseValue;
      cache := baseValue;
      seen := {};
      slots := new Slot[capacity](_ => None);
      new;
      EvalOfNothingLive(slots[..], {}, baseValue);
    }

    /** Sorts and reaps the slots and stores the value of their live modifiers. */
    method CalculateInternalValue(env: Registry)
      modifies this`cache, this`seen, slots
      ensures slots[..] == Reap(Sort(old(slots[..])), env.live)
      ensures cache == Eval(old(slots[..]), env.live, baseValue)
      ensures seen == env.live && Coherent()
      ensures old(Tracked(env)) ==> Tracked(env)
    {
      ghost var s := slots[..];
      OrderModifiers(slots);
      var v := ApplyModifiersToValue(slots, env.live, baseValue);
      RecomputeIsEval(s, env.live, baseValue);
      RecomputeKeepsEval(s, env.live, baseValue);
      if HandlesBelow(s, env.next) {
        HandlesBelowRecompute(s, env.live, env.next);
      }
      cache := v;
      seen := env.live;
    }

    /** Recomputes only if some occupied slot's handle has been dropped. */
    method UpdateModifiers(env: Registry)
      modifies this`cache, this`seen, slots
      ensures slots[..] == Maintained(old(slots[..]), env.live)
      ensures HasStale(old(slots[..]), env.live) ==>
        cache == Eval(old(slots[..]), env.live, baseValue) && seen == env.live && Coherent()
      ensures !HasStale(old(slots[..]), env.live) ==> cache == old(cache) && seen == old(seen)
      ensures old(Tracked(env)) ==> Tracked(env)
    {
      if HasStale(slots[..], env.live) {
        CalculateInternalValue(env);
      }
    }

    /** The cached value, refreshed first if some handle was dropped. */
    method Value(env: Registry) returns (r: real)
      modifies this`cache, this`seen, slots
      ensures r == cache
      ensures slots[..] == Maintained(old(slots[..]), env.live)
      ensures HasStale(old(slots[..]), env.live) ==>
        r == Eval(old(slots[..]), env.live, baseValue) && seen == env.live && Coherent()
      ensures !HasStale(old(slots[..]), env.live) ==> r == old(cache) && seen == old(seen)
      ensures old(Coherent()) && NoneRevived(old(slots[..]), old(seen), env.live) ==>
        r == Eval(old(slots[..]), env.live, baseValue)
      ensures old(Tracked(env)) ==> Tracked(env)
    {
      ghost var s := slots[..];
      if !HasStale(s, env.live) && Coherent() && NoneRevived(s, seen, env.live) {
        EvalIgnoresUnobservedChange(s, seen, env.live, baseValue);
      }
      UpdateModifiers(env);
      r := cache;
    }

    /** The live modifiers folded over `base` instead of the base value. The slots
        are sorted and reaped on the way; the cache is not written. */
    method ValueWithBase(base: real, env: Registry) returns (r: real)
      modifies slots
      ensures slots[..] == Reap(Sort(old(slots[..])), env.live)
      ensures r == Eval(old(slots[..]), env.live, base)
      ensures old(Tracked(env)) ==> Tracked(env)
    {
      ghost var s := slots[..];
      OrderModifiers(slots);
      r := ApplyModifiersToValue(slots, env.live, base);
      RecomputeIsEval(s, env.live, base);
      if HandlesBelow(s, env.next) {
        HandlesBelowRecompute(s, env.live, env.next);
      }
    }

    /** The highest order of a modifier after the update pass, or 0 if there is none. */
    method HighestOrder(env: Registry) returns (r: int)
      modifies this`cache, this`seen, slots
      ensures slots[..] == Maintained(old(slots[..]), env.live)
      ensures HasStale(old(slots[..]), env.live) ==>
        cache == Eval(old(slots[..]), env.live, baseValue) && seen == env.live && Coherent()
      ensures !HasStale(old(slots[..]), env.live) ==> cache == old(cache) && seen == old(seen)
      ensures old(Tracked(env)) ==> Tracked(env)
      ensures r == HighestOrderOrZero(slots[..])
    {
      UpdateModifiers(env);
      r := HighestOrderOrZero(slots[..]);
    }

    /** Adds `m` at order `order` into the first empty slot left by the update
        pass, under a freshly issued handle, and recomputes. Fails, changing
        nothing, when every slot holds a live modifier. */
    method AddModifierWithOrder(m: StatModifier, order: int, env: Registry)
      returns (res: Result<HandleId, ModifiersFullError>)
      requires Tracked(env)
      modifies this`cache, this`seen, slots, env
      ensures Tracked(env)
      ensures res.Err? <==> old(Full(slots[..], env.live))
      ensures res.Err? ==>
        slots[..] == old(slots[..]) && cache == old(cache) && seen == old(seen)
        && env.live == old(env.live) && env.next == old(env.next)
      ensures res.Ok? ==>
        res.value == old(env.next) && res.value !in old(env.live)
        && env.live == old(env.live) + {res.value} && env.next == old(env.next) + 1
      ensures res.Ok? ==>
        var s0 := Maintained(old(slots[..]), old(env.live));
        FirstVacant(s0).Some?
        && slots[..] == Sort(s0[FirstVacant(s0).value := Some(ModifierMeta(m, order, res.value))])
      ensures res.Ok? ==>
        multiset(Select(slots[..], Live(env.live)))
        == multiset(Select(old(slots[..]), Live(old(env.live)))) + multiset{Some(ModifierMeta(m, order, res.value))}
      ensures res.Ok? ==> !HasStale(slots[..], env.live) && seen == env.live && Coherent()
    {
      ghost var s := slots[..];
      ghost var live := env.live;
      UpdateModifiers(env);
      MaintainedFull(s, live);
      MaintainedKeepsEval(s, live, baseValue);
      ghost var s0 := slots[..];
      var k := FindVacant(slots);
      if k.None? {
        return Err(ModifiersFullError);
      }
      var h := env.Mint();
      var x := Some(ModifierMeta(m, order, h));
      slots[k.value] := x;
      assert slots[..] == s0[k.value := x];
      FillKeepsLive(s0, k.value, x, live, h);
      CalculateInternalValue(env);
      res := Ok(h);
    }

    /** Adds `m` at its default order. */
    method AddModifier(m: StatModifier, env: Registry)
      returns (res: Result<HandleId, ModifiersFullError>)
      requires Tracked(env)
      modifies this`cache, this`seen, slots, env
      ensures Tracked(env)
      ensures res.Err? <==> old(Full(slots[..], env.live))
      ensures res.Err? ==>
        slots[..] == old(slots[..]) && cache == old(cache) && seen == old(seen)
        && env.live == old(env.live) && env.next == old(env.next)
      ensures res.Ok? ==>
        res.value == old(env.next) && res.value !in old(env.live)
        && env.live == old(env.live) + {res.value} && env.next == old(env.next) + 1
      ensures res.Ok? ==>
        var s0 := Maintained(old(slots[..]), old(env.live));
        FirstVacant(s0).Some?
        && slots[..] == Sort(s0[FirstVacant(s0).value := Some(ModifierMeta(m, DefaultOrder(m), res.value))])
      ensures res.Ok? ==>
        multiset(Select(slots[..], Live(env.live)))
        == multiset(Select(old(slots[..]), Live(old(env.live)))) + multiset{Some(ModifierMeta(m, DefaultOrder(m), res.value))}
      ensures res.Ok? ==> !HasStale(slots[..], env.live) && seen == env.live && Coherent()
    {
      res := AddModifierWithOrder(m, DefaultOrder(m), env);
    }
    /** The value with this stat's live modifiers and then, re-added one by one
        at `HighestOrder() + 1 + order`, each occupied slot of `other` (its base
        value is not read). Re-adds beyond the free capacity fail silently. The
        handles of the re-added slots are held only until the value is read, so
        they are stale afterwards and the next update pass removes them. */
    method ValueWithIntegratedModifiers(other: Stat, env: Registry) returns (r: real)
      requires other != this && other.slots != slots
      requires Tracked(env) && other.Tracked(env)
      modifies this`cache, this`seen, slots, other`cache, other`seen, other.slots, env
      ensures Tracked(env) && other.Tracked(env)
      ensures env.live == old(env.live)
      ensures other.slots[..] == Maintained(old(other.slots[..]), old(env.live))
      ensures HasStale(old(other.slots[..]), old(env.live)) ==>
        other.cache == Eval(old(other.slots[..]), old(env.live), other.baseValue) && other.Coherent()
      ensures !HasStale(old(other.slots[..]), old(env.live)) ==> other.cache == old(other.cache)
      ensures cache == r
      ensures
        var s1 := Maintained(old(slots[..]), old(env.live));
        var occ := Select(Maintained(old(other.slots[..]), old(env.live)), Occupied);
        var n := Min(|occ|, Vacancies(s1));
        var added := Integrated(occ[..n], HighestOrderOrZero(s1) + 1, old(env.next));
        && env.next == old(env.next) + n
        && Select(slots[..], Live(Issued(old(env.next), env.next))) == Sort(added)
        && Eval(slots[..], env.live, baseValue) == Eval(old(slots[..]), old(env.live), baseValue)
        && multiset(Select(slots[..], Live(env.live))) == multiset(Select(old(slots[..]), Live(old(env.live))))
        && (HasStale(slots[..], env.live) <==> n > 0)
        && (n > 0 ==> r == Eval(slots[..], env.live + Issued(old(env.next), env.next), baseValue))
        && (n > 0 && NonNegativeOrders(occ[..n]) ==>
              r == Compose(Sort(added), Eval(old(slots[..]), old(env.live), baseValue)))
        && (n == 0 ==>
              slots[..] == s1 && r == cache
              && r == if HasStale(old(slots[..]), old(env.live)) then Eval(old(slots[..]), old(env.live), baseValue)
                      else old(cache))
    {
      ghost var s0, c0, live0, next0 := slots[..], cache, env.live, env.next;
      var held, h := IntegrateFrom(other, env);
      ghost var s2, nextM := slots[..], env.next;
      ghost var o1 := other.slots[..];
      r := Value(env);
      ReleaseAll(env, held, live0, next0);
      IntegrationOutcome(s0, c0, live0, next0, o1, s2, nextM, h, |held|, r, baseValue);
    }

    /** The re-adding phase of the integration: `other` is brought up to
        date, and each of its occupied slots is re-added here above the highest
        order of this stat. */
    method IntegrateFrom(other: Stat, env: Registry) returns (held: seq<HandleId>, h: int)
      requires other != this && other.slots != slots
      requires Tracked(env) && other.Tracked(env)
      modifies this`cache, this`seen, slots, other`cache, other`seen, other.slots, env
      ensures other.Tracked(env)
      ensures other.slots[..] == Maintained(old(other.slots[..]), old(env.live))
      ensures HasStale(old(other.slots[..]), old(env.live)) ==>
        other.cache == Eval(old(other.slots[..]), old(env.live), other.baseValue) && other.Coherent()
      ensures !HasStale(old(other.slots[..]), old(env.live)) ==> other.cache == old(other.cache)
      ensures
        var s1 := Maintained(old(slots[..]), old(env.live));
        var occ := Select(other.slots[..], Occupied);
        && h == HighestOrderOrZero(s1)
        && |held| == Min(|occ|, Vacancies(s1)) && held == Range(old(env.next), |held|)
        && Mid(env, old(env.live), old(Eval(slots[..], env.live, baseValue)),
               old(multiset(Select(slots[..], Live(env.live)))), Vacancies(s1),
               old(env.next), occ[..|held|], h)
      ensures |held| == 0 ==>
        slots[..] == Maintained(old(slots[..]), old(env.live))
        && cache == if HasStale(old(slots[..]), old(env.live)) then Eval(old(slots[..]), old(env.live), baseValue)
                    else old(cache)
    {
      ghost var s0, live0 := slots[..], env.live;
      MaintainedKeepsEval(s0, live0, baseValue);
      other.UpdateModifiers(env);
      h := HighestOrder(env);
      ghost var s1 := slots[..];
      assert s1 == Maintained(s0, live0);
      assert multiset(Select(s1, Live(live0))) == multiset(Select(s0, Live(live0)));
      held := AddIntegrated(other.slots[..], h, env);
    }

    /** Part-way through an integration that began with own live handles
        `live0`, own value `e0`, own live modifiers `bag` and `room` vacancies, having re-added the slots
        `done` at `h + 1 + order` under the handles from `next0` on. */
    ghost predicate Mid(env: Registry, live0: set<HandleId>, e0: real, bag: multiset<Slot>, room: nat, next0: HandleId,
                        done: seq<Slot>, h: int)
      reads this, slots, env
    {
      && Tracked(env)
      && (forall g :: g in live0 ==> g < next0)
      && env.live == live0 + Issued(next0, env.next)
      && !HasStale(slots[..], env.live)
      && Integrating(slots[..], live0, e0, bag, room, baseValue, next0, env.next, done, h)
      && (|done| > 0 ==> seen == env.live && Coherent())
    }

    /** The loop of the integration: re-adds each occupied slot of `from`, in
        slot order, at `h + 1 + order`, keeping the handles that were issued. */
    method AddIntegrated(from: seq<Slot>, h: int, env: Registry) returns (held: seq<HandleId>)
      requires Tracked(env)
      requires !HasStale(slots[..], env.live) && OwnOrdersAtMost(slots[..], env.live, h)
      modifies this`cache, this`seen, slots, env
      ensures
        var occ := Select(from, Occupied);
        && |held| == Min(|occ|, Vacancies(old(slots[..])))
        && held == Range(old(env.next), |held|)
        && Mid(env, old(env.live), old(Eval(slots[..], env.live, baseValue)),
               old(multiset(Select(slots[..], Live(env.live)))), old(Vacancies(slots[..])),
               old(env.next), occ[..|held|], h)
      ensures |held| == 0 ==> slots[..] == old(slots[..]) && cache == old(cache) && seen == old(seen)
    {
      ghost var s1, c1, seen1 := slots[..], cache, seen;
      ghost var live0, next0 := env.live, env.next;
      ghost var e0, bag, room := Eval(s1, live0, baseValue), multiset(Select(s1, Live(live0))), Vacancies(s1);
      StartsLooping(this, env, from, h);
      held := [];
      ghost var sel, done: seq<Slot> := [], [];
      for i := 0 to |from|
        invariant Looping(from, i, held, sel, done, h, env, s1, c1, seen1, live0, e0, bag, room, next0)
      {
        held, sel, done := IntegrateStep(from, i, held, h, env, sel, done, s1, c1, seen1, live0, e0, bag, room, next0);
      }
      EndsLooping(this, env, from, held, sel, done, h, s1, c1, seen1, live0, e0, bag, room, next0);
    }

    /** The state of the integration loop after the first `i` slots of `from`:
        `sel` are their occupied slots, the first `|held|` of them (`done`)
        have been re-added under the consecutive handles `held`, and the stat
        is unchanged from `s1`, `c1`, `seen1` while none has. */
    ghost predicate Looping(from: seq<Slot>, i: nat, held: seq<HandleId>, sel: seq<Slot>, done: seq<Slot>, h: int,
                            env: Registry, s1: seq<Slot>, c1: real, seen1: set<HandleId>,
                            live0: set<HandleId>, e0: real, bag: multiset<Slot>, room: nat, next0: HandleId)
      reads this, slots, env
    {
      && i <= |from| && sel == Select(from[..i], Occupied)
      && env.next == next0 + |held| && held == Range(next0, |held|)
      && |held| == Min(|sel|, room) && done == sel[..|held|]
      && Mid(env, live0, e0, bag, room, next0, done, h)
      && (|held| == 0 ==> slots[..] == s1 && cache == c1 && seen == seen1)
    }

    /** One pass of the integration loop: re-adds `from[i]` when it is
        occupied; a re-add into a full stat fails and is ignored. */
    method IntegrateStep(from: seq<Slot>, i: nat, held: seq<HandleId>, h: int, env: Registry,
                         ghost sel: seq<Slot>, ghost done: seq<Slot>, ghost s1: seq<Slot>, ghost c1: real,
                         ghost seen1: set<HandleId>, ghost live0: set<HandleId>, ghost e0: real, ghost bag: multiset<Slot>, ghost room: nat,
                         ghost next0: HandleId)
      returns (held': seq<HandleId>, ghost sel': seq<Slot>, ghost done': seq<Slot>)
      requires i < |from| && Looping(from, i, held, sel, done, h, env, s1, c1, seen1, live0, e0, bag, room, next0)
      modifies this`cache, this`seen, slots, env
      ensures Looping(from, i + 1, held', sel', done', h, env, s1, c1, seen1, live0, e0, bag, room, next0)
    {
      SelectNext(from, i, Occupied);
      held', sel', done' := held, sel, done;
      var o := from[i];
      if o.Some? {
        PrefixSnoc(sel, |held|, o);
        var res := ReaddOne(o, h, env, live0, e0, bag, room, next0, done);
        if res.Ok? {
          RangeSnoc(held, next0, res.value);
          held', done' := held + [res.value], done + [o];
        }
        sel' := sel + [o];
      }
    }

    /** One step of the integration: re-adds the occupied slot `o` at
        `h + 1 + order` under the next handle, into the first vacancy. */
    method ReaddOne(o: Slot, h: int, env: Registry, ghost live0: set<HandleId>, ghost e0: real, ghost bag: multiset<Slot>,
                    ghost room: nat, ghost next0: HandleId, ghost done: seq<Slot>)
      returns (res: Result<HandleId, ModifiersFullError>)
      requires o.Some? && Mid(env, live0, e0, bag, room, next0, done, h)
      modifies this`cache, this`seen, slots, env
      ensures res.Err? <==> |done| == room
      ensures res.Err? ==>
        slots[..] == old(slots[..]) && cache == old(cache) && seen == old(seen) && env.next == old(env.next)
        && Mid(env, live0, e0, bag, room, next0, done, h)
      ensures res.Ok? ==>
        res.value == old(env.next) && env.next == old(env.next) + 1
        && Mid(env, live0, e0, bag, room, next0, done + [o], h)
    {
      ghost var prev := slots[..];
      ghost var nxt := env.next;
      FullIffNoVacancy(prev, env.live);
      var m, order := o.value.modifier, h + 1 + o.value.order;
      assert Reissue(o, h + 1, nxt) == Some(ModifierMeta(m, order, nxt));
      res := AddModifierWithOrder(m, order, env);
      if res.Ok? {
        assert slots[..] == Sort(prev[FirstVacant(prev).value := Reissue(o, h + 1, nxt)]);
        ReaddKeepsMid(this, env, o, h, live0, e0, bag, room, next0, done, prev, nxt);
      }
    }
  }

  /** What the integration leaves, in terms of the slots `s0`, cache `c0` and
      live handles `live0` it started from, the updated slots `o1` of the other
      stat, and the slots `s2` and value `r` once `n` slots were re-added at
      `h + 1 + order` under the handles from `next0` up to `nextM`. */
  lemma IntegrationOutcome(s0: seq<Slot>, c0: real, live0: set<HandleId>, next0: HandleId, o1: seq<Slot>,
                           s2: seq<Slot>, nextM: HandleId, h: int, n: nat, r: real, base: real)
    requires forall g :: g in live0 ==> g < next0
    requires h == HighestOrderOrZero(Maintained(s0, live0))
    requires n == Min(|Select(o1, Occupied)|, Vacancies(Maintained(s0, live0)))
    requires Integrating(s2, live0, Eval(s0, live0, base), multiset(Select(s0, Live(live0))),
                         Vacancies(Maintained(s0, live0)), base,
                         next0, nextM, Select(o1, Occupied)[..n], h)
    requires !HasStale(s2, live0 + Issued(next0, nextM))
    requires n > 0 ==> r == Eval(s2, live0 + Issued(next0, nextM), base)
    requires n == 0 ==>
      s2 == Maintained(s0, live0) && r == if HasStale(s0, live0) then Eval(s0, live0, base) else c0
    ensures
      var s1 := Maintained(s0, live0);
      var occ := Select(o1, Occupied);
      var added := Integrated(occ[..n], HighestOrderOrZero(s1) + 1, next0);
      && Select(s2, Live(Issued(next0, nextM))) == Sort(added)
      && Eval(s2, live0, base) == Eval(s0, live0, base)
      && multiset(Select(s2, Live(live0))) == multiset(Select(s0, Live(live0)))
      && (HasStale(s2, live0) <==> n > 0)
      && (n > 0 && NonNegativeOrders(occ[..n]) ==> r == Compose(Sort(added), Eval(s0, live0, base)))
  {
    var done := Select(o1, Occupied)[..n];
    if n > 0 {
      ReleasedAreStale(s2, live0, next0, nextM, Integrated(done, h + 1, next0));
      if NonNegativeOrders(done) {
        IntegratedAfterOwn(s2, live0, next0, nextM, done, h, base);
      }
    } else {
      MaintainedKeepsEval(s0, live0, base);
    }
  }

  /** The integration loop starts from the stat as it is, with nothing re-added. */
  lemma StartsLooping(st: Stat, env: Registry, from: seq<Slot>, h: int)
    requires st.Tracked(env)
    requires !HasStale(st.slots[..], env.live) && OwnOrdersAtMost(st.slots[..], env.live, h)
    ensures st.Looping(from, 0, [], [], [], h, env, st.slots[..], st.cache, st.seen, env.live,
                       Eval(st.slots[..], env.live, st.baseValue), multiset(Select(st.slots[..], Live(env.live))),
                       Vacancies(st.slots[..]), env.next)
  {
    assert Issued(env.next, env.next) == {};
    SelectAllOrNone(st.slots[..], Live({}));
    assert from[..0] == [];
  }

  /** After the last pass, the integration loop has re-added the first
      `|held|` occupied slots of `from`. */
  lemma EndsLooping(st: Stat, env: Registry, from: seq<Slot>, held: seq<HandleId>, sel: seq<Slot>, done: seq<Slot>,
                    h: int, s1: seq<Slot>, c1: real, seen1: set<HandleId>, live0: set<HandleId>, e0: real, bag: multiset<Slot>,
                    room: nat, next0: HandleId)
    requires st.Looping(from, |from|, held, sel, done, h, env, s1, c1, seen1, live0, e0, bag, room, next0)
    ensures
      var occ := Select(from, Occupied);
      && |held| == Min(|occ|, room) && held == Range(next0, |held|)
      && st.Mid(env, live0, e0, bag, room, next0, occ[..|held|], h)
    ensures |held| == 0 ==> st.slots[..] == s1 && st.cache == c1 && st.seen == seen1
  {
    assert from[..|from|] == from;
  }

  /** A successful re-add keeps the integration state, with `o` added to the
      slots re-added so far. */
  lemma ReaddKeepsMid(st: Stat, env: Registry, o: Slot, h: int, live0: set<HandleId>, e0: real, bag: multiset<Slot>, room: nat,
                      next0: HandleId, done: seq<Slot>, prev: seq<Slot>, nxt: HandleId)
    requires o.Some? && FirstVacant(prev).Some?
    requires Integrating(prev, live0, e0, bag, room, st.baseValue, next0, nxt, done, h)
    requires HandlesBelow(prev, nxt) && forall g :: g in live0 ==> g < next0
    requires st.slots[..] == Sort(prev[FirstVacant(prev).value := Reissue(o, h + 1, nxt)])
    requires st.Tracked(env) && env.next == nxt + 1 && env.live == (live0 + Issued(next0, nxt)) + {nxt}
    requires !HasStale(st.slots[..], env.live) && st.seen == env.live && st.Coherent()
    ensures st.Mid(env, live0, e0, bag, room, next0, done + [o], h)
  {
    IssuedGrows(live0, next0, nxt);
    ReaddStep(prev, FirstVacant(prev).value, o, live0, e0, bag, room, st.baseValue, next0, nxt, done, h);
  }

  /** The temporary handles of an integration go out of scope. */
  method ReleaseAll(env: Registry, held: seq<HandleId>, ghost live0: set<HandleId>, ghost next0: HandleId)
    requires env.Valid() && env.next == next0 + |held|
    requires held == Range(next0, |held|)
    requires env.live == live0 + Issued(next0, env.next)
    requires forall g :: g in live0 ==> g < next0
    modifies env
    ensures env.Valid() && env.next == old(env.next)
    ensures env.live == live0
  {
    RangeMembers(next0, |held|);
    var j := 0;
    while j < |held|
      invariant 0 <= j <= |held|
      invariant env.Valid() && env.next == next0 + |held|
      invariant env.live == live0 + Issued(next0 + j, env.next)
    {
      IssuedShrinks(live0, next0 + j, env.next);
      env.Drop(held[j]);
      j := j + 1;
    }
    assert Issued(next0 + |held|, env.next) == {};
  }

  // ---------------------------------------------------------------------------
  // Facts about the slot array that the methods above rely on.

  /** Sorting and reaping issues no handle. */
  lemma HandlesBelowRecompute(s: seq<Slot>, live: set<HandleId>, next: HandleId)
    requires HandlesBelow(s, next)
    ensures HandlesBelow(Sort(s), next)
    ensures HandlesBelow(Reap(Sort(s), live), next)
  {
    SortIsArrangedPermutation(s);
    forall i | 0 <= i < |s| && Sort(s)[i].Some? ensures Sort(s)[i].value.handle < next {
      assert Sort(s)[i] in multiset(s);
    }
  }

  /** The update pass leaves a vacancy exactly when some slot was not live. */
  lemma MaintainedFull(s: seq<Slot>, live: set<HandleId>)
    ensures Full(s, live) <==> FirstVacant(Maintained(s, live)).None?
  {
    if HasStale(s, live) {
      StaleSurvivesSort(s, live);
      var t := Sort(s);
      var i :| 0 <= i < |t| && IsStale(t[i], live);
      assert Reap(t, live)[i] == None;
      var j :| 0 <= j < |s| && IsStale(s[j], live);
      assert !IsLive(s[j], live);
    } else if !Full(s, live) {
      var i :| 0 <= i < |s| && !IsLive(s[i], live);
      assert s[i].None?;
    }
  }

  lemma StaleSurvivesSort(s: seq<Slot>, live: set<HandleId>)
    requires HasStale(s, live)
    ensures HasStale(Sort(s), live)
  {
    SortIsArrangedPermutation(s);
    var j :| 0 <= j < |s| && IsStale(s[j], live);
    assert s[j] in multiset(Sort(s));
  }

  /** Writing a slot whose handle was just issued into a vacancy of an array with
      no stale slot: the array stays without stale slots, and its live contents
      grow by exactly that slot. */
  lemma FillKeepsLive(s0: seq<Slot>, k: nat, x: Slot, live: set<HandleId>, h: HandleId)
    requires k < |s0| && s0[k] == None
    requires !HasStale(s0, live)
    requires HandlesBelow(s0, h) && h !in live
    requires x.Some? && x.value.handle == h
    ensures !HasStale(Sort(s0[k := x]), live + {h})
    ensures Reap(Sort(s0[k := x]), live + {h}) == Sort(s0[k := x])
    ensures multiset(Select(Sort(s0[k := x]), Live(live + {h})))
            == multiset(Select(s0, Live(live))) + multiset{x}
    ensures HandlesBelow(Sort(s0[k := x]), h + 1)
  {
    FillLeavesNoStale(s0, k, x, live, h);
    ReapEmptiesStale(Sort(s0[k := x]), live + {h});
    var u := s0[k := x];
    SelectSort(u, Live(live + {h}));
    SortIsArrangedPermutation(Select(u, Live(live + {h})));
    SelectFillMultiset(s0, k, x, Live(live + {h}));
    SelectCongruent(s0, Live(live + {h}), Live(live));
  }

  lemma FillLeavesNoStale(s0: seq<Slot>, k: nat, x: Slot, live: set<HandleId>, h: HandleId)
    requires k < |s0| && s0[k] == None
    requires !HasStale(s0, live)
    requires HandlesBelow(s0, h)
    requires x.Some? && x.value.handle == h
    ensures !HasStale(Sort(s0[k := x]), live + {h})
    ensures HandlesBelow(Sort(s0[k := x]), h + 1)
  {
    var u := s0[k := x];
    SortIsArrangedPermutation(u);
    forall i | 0 <= i < |u| && Sort(u)[i].Some?
      ensures Sort(u)[i].value.handle in live + {h} && Sort(u)[i].value.handle < h + 1
    {
      assert Sort(u)[i] in multiset(u);
    }
  }

  /** Writing a vacancy adds the written slot, if it meets `c`, to the selection. */
  lemma SelectFillMultiset(s: seq<Slot>, k: nat, x: Slot, c: Criterion)
    requires k < |s| && s[k] == None
    ensures multiset(Select(s[k := x], c))
            == multiset(Select(s, c)) + if Meets(x, c) then multiset{x} else multiset{}
  {
    SelectSplit(s, k, c);
    SelectSplit(s[k := x], k, c);
    assert s[k := x][..k] == s[..k];
    assert s[k := x][k + 1..] == s[k + 1..];
  }

  /** The slots of `s` that meet `c`: those before position `k`, then `s[k]` if
      it meets `c`, then those after `k`. */
  lemma SelectSplit(s: seq<Slot>, k: nat, c: Criterion)
    requires k < |s|
    ensures Select(s, c) == Select(s[..k], c) + (if Meets(s[k], c) then [s[k]] else []) + Select(s[k + 1..], c)
  {
    assert s == s[..k] + [s[k]] + s[k + 1..];
    SelectConcat(s[..k] + [s[k]], s[k + 1..], c);
    SelectAppend(s[..k], s[k], c);
  }
}
