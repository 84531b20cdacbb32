/** The slot-array side of integrating another stat's modifiers
    (src/stat.rs:218-237): which slots are re-added, under which orders and
    handles, and what each re-add does to the receiving array. */
module Integrate {
  import opened Modifier
  import opened Slots

  function Min(a: nat, b: nat): nat
  {
    if a <= b then a else b
  }

  /** The handles issued from `lo` up to, not including, `hi`. */
  function Issued(lo: HandleId, hi: HandleId): set<HandleId>
    decreases hi
  {
    if hi <= lo then {} else Issued(lo, hi - 1) + {hi - 1}
  }

  lemma {:induction false} IssuedMembers(lo: HandleId, hi: HandleId)
    ensures forall g :: g in Issued(lo, hi) <==> lo <= g < hi
    decreases hi
  {
    if hi > lo {
      IssuedMembers(lo, hi - 1);
    }
  }

  /** Every slot of `s` live under `own` has order at most `h`. */
  predicate OwnOrdersAtMost(s: seq<Slot>, own: set<HandleId>, h: int)
  {
    forall j :: 0 <= j < |s| && IsLive(s[j], own) ==> s[j].value.order <= h
  }

  /** The slot `o` as re-added to another stat: same modifier, order shifted by
      `shift`, observing `handle`. */
  function Reissue(o: Slot, shift: int, handle: HandleId): Slot
  {
    match o
    case None => None
    case Some(m) => Some(ModifierMeta(m.modifier, shift + m.order, handle))
  }

  /** The slots of `occ`, re-added in turn under consecutive handles from `first`. */
  function Integrated(occ: seq<Slot>, shift: int, first: HandleId): seq<Slot>
  {
    seq(|occ|, j requires 0 <= j < |occ| => Reissue(occ[j], shift, first + j))
  }

  /** Issuing `hi` to holders of `own` and of the handles from `lo` adds it to
      the issued range. */
  lemma IssuedGrows(own: set<HandleId>, lo: HandleId, hi: HandleId)
    requires lo <= hi
    ensures (own + Issued(lo, hi)) + {hi} == own + Issued(lo, hi + 1)
  {
  }

  /** Dropping the lowest issued handle `lo` shrinks the issued range, when no
      handle of `own` is at or above `lo`. */
  lemma IssuedShrinks(own: set<HandleId>, lo: HandleId, hi: HandleId)
    requires lo < hi
    requires forall g :: g in own ==> g < lo
    ensures (own + Issued(lo, hi)) - {lo} == own + Issued(lo + 1, hi)
  {
    IssuedMembers(lo, hi);
    IssuedMembers(lo + 1, hi);
  }

  /** A prefix of `sel` is unchanged by appending to `sel`, and grows with it
      when it was the whole of `sel`. */
  lemma PrefixSnoc(sel: seq<Slot>, n: nat, o: Slot)
    requires n <= |sel|
    ensures (sel + [o])[..n] == sel[..n]
    ensures n == |sel| ==> (sel + [o])[..n + 1] == sel[..n] + [o]
  {
  }

  /** The `n` consecutive handles from `lo`. */
  function Range(lo: HandleId, n: nat): seq<HandleId>
  {
    if n == 0 then [] else Range(lo, n - 1) + [lo + n - 1]
  }

  lemma RangeSnoc(held: seq<HandleId>, lo: HandleId, v: HandleId)
    requires held == Range(lo, |held|) && v == lo + |held|
    ensures held + [v] == Range(lo, |held + [v]|)
  {
  }

  lemma {:induction false} RangeMembers(lo: HandleId, n: nat)
    ensures |Range(lo, n)| == n
    ensures forall j :: 0 <= j < n ==> Range(lo, n)[j] == lo + j
  {
    if n > 0 {
      RangeMembers(lo, n - 1);
    }
  }

  lemma IntegratedSnoc(q: seq<Slot>, o: Slot, shift: int, first: HandleId)
    ensures Integrated(q + [o], shift, first) == Integrated(q, shift, first) + [Reissue(o, shift, first + |q|)]
  {
  }

  // ---------------------------------------------------------------------------
  // One re-add: the new slot `x` is written into the first vacancy `k` of
  // `prev` and the array is sorted.

  /** The slots observing the handles issued during the integration are, after
      one more re-add, the re-added slots so far in sorted order. */
  lemma FillSelectsIssued(prev: seq<Slot>, k: nat, x: Slot, next0: HandleId, nxt: HandleId, added: seq<Slot>)
    requires FirstVacant(prev) == Some(k)
    requires nxt > next0 ==> VacantAfterFirst(prev)
    requires next0 <= nxt && HandlesBelow(prev, nxt)
    requires x.Some? && x.value.handle == nxt
    requires Select(prev, Live(Issued(next0, nxt))) == Sort(added)
    ensures Select(Sort(prev[k := x]), Live(Issued(next0, nxt + 1))) == Sort(added + [x])
  {
    var c := Live(Issued(next0, nxt + 1));
    IssuedMembers(next0, nxt + 1);
    forall j | k < j < |prev| ensures !Meets(prev[j], c) {
    }
    SelectFillVacancy(prev, k, x, c);
    SelectCongruent(prev, c, Live(Issued(next0, nxt)));
    SelectSort(prev[k := x], c);
    SortIsArrangedPermutation(added);
    SortOfArranged(Sort(added));
    assert (Sort(added) + [x])[..|added|] == Sort(added);
    assert (added + [x])[..|added|] == added;
  }

  /** A re-add takes exactly one vacancy. */
  lemma FillVacancies(prev: seq<Slot>, k: nat, x: Slot)
    requires k < |prev| && prev[k] == None && x.Some?
    ensures Vacancies(Sort(prev[k := x])) == Vacancies(prev) - 1
  {
    FillOneVacancy(prev, k, x);
    SortKeepsVacancies(prev[k := x]);
  }

  /** A re-add leaves the receiving stat's own live modifiers, and so their
      value, unchanged. */
  lemma FillKeepsOwn(prev: seq<Slot>, k: nat, x: Slot, own: set<HandleId>, base: real)
    requires k < |prev| && prev[k] == None
    requires !Meets(x, Live(own))
    ensures multiset(Select(Sort(prev[k := x]), Live(own))) == multiset(Select(prev, Live(own)))
    ensures Eval(Sort(prev[k := x]), own, base) == Eval(prev, own, base)
  {
    var u := prev[k := x];
    SelectSort(u, Live(own));
    SortIsArrangedPermutation(Select(u, Live(own)));
    SortOfArranged(Sort(Select(u, Live(own))));
    SelectReplaceUnmet(prev, k, x, Live(own));
  }

  /** A re-add does not raise the order of any of the receiving stat's own modifiers. */
  lemma FillKeepsOwnOrders(prev: seq<Slot>, k: nat, x: Slot, own: set<HandleId>, h: int)
    requires k < |prev|
    requires !Meets(x, Live(own))
    requires OwnOrdersAtMost(prev, own, h)
    ensures OwnOrdersAtMost(Sort(prev[k := x]), own, h)
  {
    var u := prev[k := x];
    SortIsArrangedPermutation(u);
    forall j | 0 <= j < |prev| && IsLive(Sort(u)[j], own) ensures Sort(u)[j].value.order <= h {
      assert Sort(u)[j] in multiset(u);
      var m :| 0 <= m < |u| && u[m] == Sort(u)[j];
    }
  }

  /** The state of the receiving array `s` part-way through an integration
      that began with own live handles `own`, own value `e0`, own live
      modifiers `bag` and `room` vacancies, and has so far re-added the slots `done` at `h + 1 + order`
      under the handles `next0` up to `nxt`. */
  ghost predicate Integrating(s: seq<Slot>, own: set<HandleId>, e0: real, bag: multiset<Slot>, room: nat, base: real,
                              next0: HandleId, nxt: HandleId, done: seq<Slot>, h: int)
  {
    && next0 <= nxt && nxt == next0 + |done|
    && Select(s, Live(Issued(next0, nxt))) == Sort(Integrated(done, h + 1, next0))
    && (nxt > next0 ==> VacantAfterFirst(s))
    && Vacancies(s) + |done| == room
    && Eval(s, own, base) == e0
    && multiset(Select(s, Live(own))) == bag
    && OwnOrdersAtMost(s, own, h)
  }

  /** One re-add of `o` under handle `nxt` into the first vacancy of an array
      without stale slots keeps the integration state. */
  lemma ReaddStep(prev: seq<Slot>, k: nat, o: Slot, own: set<HandleId>, e0: real, bag: multiset<Slot>, room: nat, base: real,
                  next0: HandleId, nxt: HandleId, done: seq<Slot>, h: int)
    requires Integrating(prev, own, e0, bag, room, base, next0, nxt, done, h)
    requires FirstVacant(prev) == Some(k) && HandlesBelow(prev, nxt)
    requires forall g :: g in own ==> g < next0
    requires o.Some?
    ensures Integrating(Sort(prev[k := Reissue(o, h + 1, nxt)]), own, e0, bag, room, base, next0, nxt + 1, done + [o], h)
  {
    var x := Reissue(o, h + 1, nxt);
    var a := Integrated(done, h + 1, next0);
    IntegratedSnoc(done, o, h + 1, next0);
    assert Integrated(done + [o], h + 1, next0) == a + [x];
    FillSelectsIssued(prev, k, x, next0, nxt, a);
    FillVacancies(prev, k, x);
    FillKeepsOwn(prev, k, x, own, base);
    FillKeepsOwnOrders(prev, k, x, own, h);
    SortedVacantAfterFirst(prev[k := x]);
  }

  // ---------------------------------------------------------------------------
  // After the last re-add.

  /** Every slot of `q` is occupied, at an order of at least zero. */
  predicate NonNegativeOrders(q: seq<Slot>)
  {
    forall j :: 0 <= j < |q| ==> q[j].Some? && q[j].value.order >= 0
  }

  /** Re-added at `h + 1 + order`, slots with orders of at least zero all have
      orders above `h`. */
  lemma IntegratedAbove(done: seq<Slot>, h: int, first: HandleId)
    requires NonNegativeOrders(done)
    ensures forall x :: x in Integrated(done, h + 1, first) ==> x.Some? && x.value.order > h
  {
  }

  /** When the re-added slots all come after the receiving stat's own live
      slots, the value with both is the own value with the re-added modifiers
      applied on top of it, in sorted order. */
  lemma AddedAfterOwn(s: seq<Slot>, own: set<HandleId>, next0: HandleId, nxt: HandleId,
                      added: seq<Slot>, h: int, base: real)
    requires forall g :: g in own ==> g < next0
    requires OwnOrdersAtMost(s, own, h)
    requires Select(s, Live(Issued(next0, nxt))) == Sort(added)
    requires forall x :: x in added ==> x.Some? && x.value.order > h
    ensures Eval(s, own + Issued(next0, nxt), base) == Compose(Sort(added), Eval(s, own, base))
  {
    var c := Live(Issued(next0, nxt));
    IssuedMembers(next0, nxt);
    SortIsArrangedPermutation(added);
    forall j | 0 <= j < |s| && IsLive(s[j], Issued(next0, nxt)) ensures s[j].value.order > h {
      SelectHasMeeting(s, j, c);
      assert s[j] in multiset(added);
    }
    EvalSplitsAt(s, own, Issued(next0, nxt), h, base);
    SortOfArranged(Sort(added));
  }

  /** The slots `done`, re-added at `h + 1 + order` with orders of at least
      zero, are applied after all of the receiving stat's own modifiers. */
  lemma IntegratedAfterOwn(s: seq<Slot>, own: set<HandleId>, next0: HandleId, nxt: HandleId,
                           done: seq<Slot>, h: int, base: real)
    requires forall g :: g in own ==> g < next0
    requires OwnOrdersAtMost(s, own, h)
    requires Select(s, Live(Issued(next0, nxt))) == Sort(Integrated(done, h + 1, next0))
    requires NonNegativeOrders(done)
    ensures Eval(s, own + Issued(next0, nxt), base) == Compose(Sort(Integrated(done, h + 1, next0)), Eval(s, own, base))
  {
    IntegratedAbove(done, h, next0);
    AddedAfterOwn(s, own, next0, nxt, Integrated(done, h + 1, next0), h, base);
  }

  /** A negative order breaks the promise above: an own Flat(1) at order 5
      and another stat's PercentMultiply(2) at order -10, re-added at
      5 + 1 - 10 = -4, give 1 on a base of 0, because the multiplication is
      applied first; applied after the own modifier it would give 2. */
  lemma NegativeOrderComesFirst()
    ensures
      var own := Some(ModifierMeta(Flat(1.0), 5, 0));
      var added := Integrated([Some(ModifierMeta(PercentMultiply(2.0), -10, 3))], 5 + 1, 1);
      && added == [Some(ModifierMeta(PercentMultiply(2.0), -4, 1))]
      && Eval([own] + added, {0, 1}, 0.0) == 1.0
      && Compose(Sort(added), Eval([own], {0}, 0.0)) == 2.0
  {
    var own := Some(ModifierMeta(Flat(1.0), 5, 0));
    var x := Some(ModifierMeta(PercentMultiply(2.0), -4, 1));
    assert Integrated([Some(ModifierMeta(PercentMultiply(2.0), -10, 3))], 5 + 1, 1) == [x];
    assert [own] + [x] == [own, x];
    ReaddedAppliedFirst(own, x);
    ReaddedAppliedLast(own, x);
  }

  /** The slots of the example above, both live: the re-added one sorts first. */
  lemma ReaddedAppliedFirst(own: Slot, x: Slot)
    requires own == Some(ModifierMeta(Flat(1.0), 5, 0))
    requires x == Some(ModifierMeta(PercentMultiply(2.0), -4, 1))
    ensures Eval([own, x], {0, 1}, 0.0) == 1.0
  {
    assert Select([own, x], Live({0, 1})) == [own, x] by {
      assert [own, x][..1] == [own];
      assert [own][..0] == [];
    }
    assert Sort([own, x]) == [x, own] by {
      assert [own, x][..1] == [own];
      assert [own][..0] == [];
      assert Sort([own]) == [own];
      assert Insert([own], x) == Insert([], x) + [own];
    }
    assert Compose([x, own], 0.0) == 1.0 by {
      assert [x, own][..1] == [x];
      assert [x][..0] == [];
      assert Compose([x], 0.0) == 0.0;
    }
  }

  /** The same two modifiers with the re-added one applied after the own one. */
  lemma ReaddedAppliedLast(own: Slot, x: Slot)
    requires own == Some(ModifierMeta(Flat(1.0), 5, 0))
    requires x == Some(ModifierMeta(PercentMultiply(2.0), -4, 1))
    ensures Compose(Sort([x]), Eval([own], {0}, 0.0)) == 2.0
  {
    assert Eval([own], {0}, 0.0) == 1.0 by {
      assert [own][..0] == [];
      assert Select([own], Live({0})) == [own];
      assert Sort([own]) == [own];
      assert Compose([own], 0.0) == 1.0;
    }
    assert Sort([x]) == [x] by {
      assert [x][..0] == [];
    }
    assert Compose([x], 1.0) == 2.0 by {
      assert [x][..0] == [];
    }
  }

  /** Once the handles issued during the integration are dropped, the slots
      observing them are stale. */
  lemma ReleasedAreStale(s: seq<Slot>, own: set<HandleId>, next0: HandleId, nxt: HandleId, added: seq<Slot>)
    requires forall g :: g in own ==> g < next0
    requires Select(s, Live(Issued(next0, nxt))) == Sort(added)
    requires |added| > 0
    ensures HasStale(s, own)
  {
    var c := Live(Issued(next0, nxt));
    var y := Select(s, c)[0];
    SelectSubset(s, c);
    SelectMeets(s, c);
    assert y in multiset(s);
    var i :| 0 <= i < |s| && s[i] == y;
    IssuedMembers(next0, nxt);
    assert IsStale(s[i], own);
  }

  /** With no stale slot, a stat is full exactly when it has no vacancy. */
  lemma FullIffNoVacancy(s: seq<Slot>, live: set<HandleId>)
    requires !HasStale(s, live)
    ensures Full(s, live) <==> Vacancies(s) == 0
  {
    VacanciesCounted(s);
    if !Full(s, live) {
      var i :| 0 <= i < |s| && !IsLive(s[i], live);
      assert s[i] == None;
      assert None in multiset(s);
    }
    if Vacancies(s) > 0 {
      assert None in multiset(s);
      var i :| 0 <= i < |s| && s[i] == None;
    }
  }
}
