/** The slot array of a stat as a value (src/stat.rs): what ordering, reaping and
    folding do to it, and what value a slot array stands for. The imperative code
    in module Stats is proved against the functions defined here. */
module Slots {
  import opened Modifier

  datatype Option<T> = None | Some(value: T)

  /** The identity of a handle given to a caller. Whether it is still held is
      decided by a set of live identities (see module Handles). */
  type HandleId = nat

  /** One occupied slot: the modifier, its order and the handle it observes. */
  datatype ModifierMeta = ModifierMeta(modifier: StatModifier, order: int, handle: HandleId)

  /** A slot is empty (None) or holds one modifier. */
  type Slot = Option<ModifierMeta>

  /** The slot holds a modifier whose handle is still held. */
  predicate IsLive(o: Slot, live: set<HandleId>)
  {
    o.Some? && o.value.handle in live
  }

  /** The slot holds a modifier whose handle has been dropped. */
  predicate IsStale(o: Slot, live: set<HandleId>)
  {
    o.Some? && o.value.handle !in live
  }

  predicate HasStale(s: seq<Slot>, live: set<HandleId>)
  {
    exists i :: 0 <= i < |s| && IsStale(s[i], live)
  }

  /** Every slot holds a modifier whose handle is still held: nothing can be added. */
  predicate Full(s: seq<Slot>, live: set<HandleId>)
  {
    forall i :: 0 <= i < |s| ==> IsLive(s[i], live)
  }

  /** Every handle a slot observes is below `next`, the first identity not yet issued. */
  predicate HandlesBelow(s: seq<Slot>, next: HandleId)
  {
    forall i :: 0 <= i < |s| && s[i].Some? ==> s[i].value.handle < next
  }

  /** No slot whose handle is held under `after` had its handle dropped under
      `before`: handles are only dropped or newly issued between the two. */
  predicate NoneRevived(s: seq<Slot>, before: set<HandleId>, after: set<HandleId>)
  {
    forall i :: 0 <= i < |s| && IsLive(s[i], after) ==> IsLive(s[i], before)
  }

  /** The number of empty slots. */
  function Vacancies(s: seq<Slot>): nat
  {
    if |s| == 0 then 0 else Vacancies(s[..|s| - 1]) + (if s[|s| - 1].None? then 1 else 0)
  }

  /** The empty slots are the occurrences of None; so a permutation keeps their number. */
  lemma {:induction false} VacanciesCounted(s: seq<Slot>)
    ensures Vacancies(s) == multiset(s)[None]
  {
    if |s| > 0 {
      assert s == s[..|s| - 1] + [s[|s| - 1]];
      VacanciesCounted(s[..|s| - 1]);
    }
  }

  /** Sorting keeps the number of empty slots. */
  lemma SortKeepsVacancies(s: seq<Slot>)
    ensures Vacancies(Sort(s)) == Vacancies(s)
  {
    SortIsArrangedPermutation(s);
    VacanciesCounted(s);
    VacanciesCounted(Sort(s));
  }

  /** Writing a slot into an empty position takes one vacancy. */
  lemma FillOneVacancy(s: seq<Slot>, k: nat, x: Slot)
    requires k < |s| && s[k] == None && x.Some?
    ensures Vacancies(s[k := x]) == Vacancies(s) - 1
  {
    VacanciesCounted(s);
    VacanciesCounted(s[k := x]);
  }

  // ---------------------------------------------------------------------------
  // Ordering: occupied slots first, by ascending order; empty slots last.

  /** `x` belongs strictly before `y`. */
  predicate Precedes(x: Slot, y: Slot)
  {
    x.Some? && (y.None? || x.value.order < y.value.order)
  }

  /** No slot belongs strictly before one to its left. */
  ghost predicate Arranged(s: seq<Slot>)
  {
    forall i, j :: 0 <= i < j < |s| ==> !Precedes(s[j], s[i])
  }

  /** `x` inserted into `t` after every slot it does not belong strictly before. */
  function Insert(t: seq<Slot>, x: Slot): (r: seq<Slot>)
    ensures |r| == |t| + 1
    decreases |t|
  {
    if |t| == 0 || !Precedes(x, t[|t| - 1]) then t + [x]
    else Insert(t[..|t| - 1], x) + [t[|t| - 1]]
  }

  /** Inserting adds exactly `x`. */
  lemma {:induction false} InsertPermutes(t: seq<Slot>, x: Slot)
    ensures multiset(Insert(t, x)) == multiset(t) + multiset{x}
    decreases |t|
  {
    if |t| > 0 && Precedes(x, t[|t| - 1]) {
      var init, last := t[..|t| - 1], t[|t| - 1];
      assert t == init + [last];
      InsertPermutes(init, x);
    }
  }

  /** Stable insertion sort of the slots: the arrangement `order_modifiers` intends. */
  function Sort(s: seq<Slot>): (r: seq<Slot>)
    ensures |r| == |s|
    decreases |s|
  {
    if |s| == 0 then []
    else Insert(Sort(s[..|s| - 1]), s[|s| - 1])
  }

  /** Sorting rearranges the slots, and only rearranges them: the result is
      arranged and holds the same slots, as often as before. */
  lemma {:induction false} SortIsArrangedPermutation(s: seq<Slot>)
    ensures multiset(Sort(s)) == multiset(s)
    ensures Arranged(Sort(s))
    decreases |s|
  {
    if |s| > 0 {
      var init, last := s[..|s| - 1], s[|s| - 1];
      assert s == init + [last];
      SortIsArrangedPermutation(init);
      InsertPermutes(Sort(init), last);
      InsertArranged(Sort(init), last);
    }
  }

  lemma {:induction false} InsertArranged(t: seq<Slot>, x: Slot)
    requires Arranged(t)
    ensures Arranged(Insert(t, x))
    decreases |t|
  {
    if |t| == 0 || !Precedes(x, t[|t| - 1]) {
      var r := t + [x];
      forall i, j | 0 <= i < j < |r| ensures !Precedes(r[j], r[i]) {
        if j == |t| && i < |t| - 1 {
          assert !Precedes(t[|t| - 1], t[i]);
        }
      }
    } else {
      var init, last := t[..|t| - 1], t[|t| - 1];
      assert Arranged(init);
      InsertArranged(init, x);
      var u := Insert(init, x);
      InsertPermutes(init, x);
      var r := u + [last];
      forall i, j | 0 <= i < j < |r| ensures !Precedes(r[j], r[i]) {
        if j == |u| {
          assert r[i] == u[i];
          assert u[i] in multiset(u);
          if u[i] != x {
            assert u[i] in multiset(init);
            var k :| 0 <= k < |init| && init[k] == u[i];
            assert !Precedes(t[|t| - 1], t[k]);
          }
        } else {
          assert r[i] == u[i] && r[j] == u[j];
        }
      }
    }
  }

  /** Sorting an arranged sequence leaves it as it is. */
  lemma {:induction false} SortOfArranged(t: seq<Slot>)
    requires Arranged(t)
    ensures Sort(t) == t
    decreases |t|
  {
    if |t| > 0 {
      var n := |t| - 1;
      var init, last := t[..n], t[n];
      ArrangedPrefix(t, n);
      SortOfArranged(init);
      assert Sort(t) == Insert(Sort(init), last);
      if n > 0 {
        assert !Precedes(last, init[n - 1]);
      }
      assert Insert(init, last) == init + [last];
      assert init + [last] == t;
    }
  }

  /** Two arranged sequences of occupied slots with the same contents and pairwise
      distinct orders are equal: distinct orders fix the order of application. */
  lemma {:induction false} ArrangedIsUnique(u: seq<Slot>, t: seq<Slot>)
    requires Arranged(u) && Arranged(t)
    requires multiset(u) == multiset(t)
    requires forall i :: 0 <= i < |t| ==> t[i].Some?
    requires forall i, j :: 0 <= i < j < |t| ==> t[i].value.order != t[j].value.order
    ensures u == t
    decreases |t|
  {
    assert |u| == |multiset(u)| == |t|;
    if |t| > 0 {
      var n := |t| - 1;
      ArrangedSameLast(u, t);
      SameLastSamePrefix(u, t);
      ArrangedPrefix(u, n);
      ArrangedPrefix(t, n);
      ArrangedIsUnique(u[..n], t[..n]);
      assert u == u[..n] + [u[n]] && t == t[..n] + [t[n]];
    }
  }

  /** Two arrangements of the same slots with pairwise distinct orders end in
      the same slot. */
  lemma ArrangedSameLast(u: seq<Slot>, t: seq<Slot>)
    requires Arranged(u) && Arranged(t)
    requires multiset(u) == multiset(t) && |u| == |t| > 0
    requires forall i :: 0 <= i < |t| ==> t[i].Some?
    requires forall i, j :: 0 <= i < j < |t| ==> t[i].value.order != t[j].value.order
    ensures u[|u| - 1] == t[|t| - 1]
  {
    var n := |t| - 1;
    assert u[n] in multiset(t);
    var k :| 0 <= k < |t| && t[k] == u[n];
    assert t[n] in multiset(u);
    var m :| 0 <= m < |u| && u[m] == t[n];
    assert !Precedes(u[n], u[m]) || m == n;
    assert !Precedes(t[n], t[k]) || k == n;
    assert k == n;
  }

  lemma SameLastSamePrefix(u: seq<Slot>, t: seq<Slot>)
    requires |u| == |t| > 0 && u[|u| - 1] == t[|t| - 1]
    requires multiset(u) == multiset(t)
    ensures multiset(u[..|u| - 1]) == multiset(t[..|t| - 1])
  {
    var n := |u| - 1;
    assert u == u[..n] + [u[n]] && t == t[..n] + [t[n]];
    var a, b, x := multiset(u[..n]), multiset(t[..n]), multiset{u[n]};
    assert a + x == b + x;
    assert a == (a + x) - x;
    assert b == (b + x) - x;
  }

  lemma ArrangedPrefix(s: seq<Slot>, n: nat)
    requires Arranged(s) && n <= |s|
    ensures Arranged(s[..n])
  {
  }

  // ---------------------------------------------------------------------------
  // Selecting slots by a criterion, keeping their relative positions.

  /** What a selection keeps; an empty slot never meets a criterion. */
  datatype Criterion =
    | Occupied
    | Live(handles: set<HandleId>)
    | OrderIs(k: int)
    | OrderAtMost(bound: int)
    | OrderAbove(bound: int)
    | Flats
    | PercentAdds
    | PercentMultiplies

  predicate Meets(o: Slot, c: Criterion)
  {
    o.Some? &&
    match c
    case Occupied => true
    case Live(hs) => o.value.handle in hs
    case OrderIs(k) => o.value.order == k
    case OrderAtMost(b) => o.value.order <= b
    case OrderAbove(b) => o.value.order > b
    case Flats => o.value.modifier.Flat?
    case PercentAdds => o.value.modifier.PercentAdd?
    case PercentMultiplies => o.value.modifier.PercentMultiply?
  }

  /** The slots of `s` that meet `c`, in the order they appear in `s`. */
  function Select(s: seq<Slot>, c: Criterion): (r: seq<Slot>)
    ensures |r| <= |s|
    decreases |s|
  {
    if |s| == 0 then []
    else Select(s[..|s| - 1], c) + (if Meets(s[|s| - 1], c) then [s[|s| - 1]] else [])
  }

  /** Everything selected meets the criterion. */
  lemma {:induction false} SelectMeets(s: seq<Slot>, c: Criterion)
    ensures forall i :: 0 <= i < |Select(s, c)| ==> Meets(Select(s, c)[i], c)
    decreases |s|
  {
    if |s| > 0 {
      SelectMeets(s[..|s| - 1], c);
    }
  }

  /** Sorting slots that all meet a criterion gives slots that all meet it. */
  lemma SortMeets(l: seq<Slot>, c: Criterion)
    requires forall i :: 0 <= i < |l| ==> Meets(l[i], c)
    ensures forall i :: 0 <= i < |Sort(l)| ==> Meets(Sort(l)[i], c)
  {
    SortIsArrangedPermutation(l);
    forall i | 0 <= i < |Sort(l)| ensures Meets(Sort(l)[i], c) {
      assert Sort(l)[i] in multiset(l);
    }
  }

  /** A selection takes nothing that is not in `s`. */
  lemma {:induction false} SelectSubset(s: seq<Slot>, c: Criterion)
    ensures multiset(Select(s, c)) <= multiset(s)
    decreases |s|
  {
    if |s| > 0 {
      assert s == s[..|s| - 1] + [s[|s| - 1]];
      SelectSubset(s[..|s| - 1], c);
    }
  }

  lemma SelectAppend(s: seq<Slot>, x: Slot, c: Criterion)
    ensures Select(s + [x], c) == Select(s, c) + if Meets(x, c) then [x] else []
  {
    assert (s + [x])[..|s|] == s;
  }

  /** The slots of a prefix of `s` that meet `c` grow by the next slot when it meets `c`. */
  lemma SelectNext(s: seq<Slot>, i: nat, c: Criterion)
    requires i < |s|
    ensures Select(s[..i + 1], c) == Select(s[..i], c) + if Meets(s[i], c) then [s[i]] else []
  {
    assert s[..i + 1] == s[..i] + [s[i]];
    SelectAppend(s[..i], s[i], c);
  }

  lemma {:induction false} SelectConcat(a: seq<Slot>, b: seq<Slot>, c: Criterion)
    ensures Select(a + b, c) == Select(a, c) + Select(b, c)
    decreases |b|
  {
    if |b| > 0 {
      var init, last := b[..|b| - 1], b[|b| - 1];
      assert b == init + [last];
      assert a + b == (a + init) + [last];
      SelectConcat(a, init, c);
      SelectAppend(a + init, last, c);
      SelectAppend(init, last, c);
      var tail := if Meets(last, c) then [last] else [];
      calc {
        Select(a + b, c);
        Select(a + init, c) + tail;
        (Select(a, c) + Select(init, c)) + tail;
        Select(a, c) + (Select(init, c) + tail);
        Select(a, c) + Select(b, c);
      }
    } else {
      assert a + b == a;
    }
  }

  /** Selecting from a selection is one selection, when the criteria combine so. */
  lemma {:induction false} SelectSelect(s: seq<Slot>, c1: Criterion, c2: Criterion, c3: Criterion)
    requires forall i :: 0 <= i < |s| ==> (Meets(s[i], c1) && Meets(s[i], c2) <==> Meets(s[i], c3))
    ensures Select(Select(s, c1), c2) == Select(s, c3)
    decreases |s|
  {
    if |s| > 0 {
      var init, last := s[..|s| - 1], s[|s| - 1];
      assert s == init + [last];
      assert Meets(last, c1) && Meets(last, c2) <==> Meets(last, c3);
      SelectSelect(init, c1, c2, c3);
      SelectAppend(init, last, c1);
      SelectAppend(init, last, c3);
      if Meets(last, c1) {
        SelectAppend(Select(init, c1), last, c2);
        calc {
          Select(Select(s, c1), c2);
          Select(Select(init, c1) + [last], c2);
          Select(Select(init, c1), c2) + (if Meets(last, c2) then [last] else []);
          Select(init, c3) + (if Meets(last, c3) then [last] else []);
          Select(s, c3);
        }
      } else {
        assert Select(s, c1) == Select(init, c1) + [] == Select(init, c1);
        assert Select(s, c3) == Select(init, c3) + [] == Select(init, c3);
      }
    }
  }

  /** Two criteria that agree on every slot select the same slots. */
  lemma {:induction false} SelectCongruent(s: seq<Slot>, c1: Criterion, c2: Criterion)
    requires forall i :: 0 <= i < |s| ==> (Meets(s[i], c1) <==> Meets(s[i], c2))
    ensures Select(s, c1) == Select(s, c2)
    decreases |s|
  {
    if |s| > 0 {
      SelectCongruent(s[..|s| - 1], c1, c2);
    }
  }

  /** A selection that keeps every slot of `s` is `s`; one that keeps none is empty. */
  lemma {:induction false} SelectAllOrNone(s: seq<Slot>, c: Criterion)
    ensures (forall i :: 0 <= i < |s| ==> Meets(s[i], c)) ==> Select(s, c) == s
    ensures (forall i :: 0 <= i < |s| ==> !Meets(s[i], c)) ==> Select(s, c) == []
    decreases |s|
  {
    if |s| > 0 {
      SelectAllOrNone(s[..|s| - 1], c);
      assert s[..|s| - 1] + [s[|s| - 1]] == s;
    }
  }

  /** Writing into an empty slot after which nothing meets `c` appends to the selection. */
  lemma SelectFillVacancy(s: seq<Slot>, i: nat, x: Slot, c: Criterion)
    requires i < |s| && s[i] == None
    requires forall j :: i < j < |s| ==> !Meets(s[j], c)
    ensures Select(s[i := x], c) == Select(s, c) + if Meets(x, c) then [x] else []
  {
    var tail := s[i + 1..];
    assert s == s[..i] + [None] + tail;
    assert s[i := x] == s[..i] + [x] + tail;
    SelectConcat(s[..i] + [None], tail, c);
    SelectConcat(s[..i] + [x], tail, c);
    SelectAllOrNone(tail, c);
    SelectAppend(s[..i], None, c);
    SelectAppend(s[..i], x, c);
  }

  // ---------------------------------------------------------------------------
  // Sorting and selecting commute: the sort is stable.

  /** Replacing a slot that does not meet `c` by another that does not leaves
      the selection as it is. */
  lemma SelectReplaceUnmet(s: seq<Slot>, k: nat, x: Slot, c: Criterion)
    requires k < |s| && !Meets(s[k], c) && !Meets(x, c)
    ensures Select(s[k := x], c) == Select(s, c)
  {
    var pre, post := s[..k], s[k + 1..];
    assert s == pre + [s[k]] + post;
    assert s[k := x] == pre + [x] + post;
    SelectConcat(pre + [s[k]], post, c);
    SelectConcat(pre + [x], post, c);
    SelectAppend(pre, s[k], c);
    SelectAppend(pre, x, c);
  }

  /** Every slot that meets `c` is selected. */
  lemma {:induction false} SelectHasMeeting(s: seq<Slot>, j: nat, c: Criterion)
    requires j < |s| && Meets(s[j], c)
    ensures s[j] in multiset(Select(s, c))
    decreases |s|
  {
    var init, last := s[..|s| - 1], s[|s| - 1];
    assert s == init + [last];
    SelectAppend(init, last, c);
    if j < |s| - 1 {
      SelectHasMeeting(init, j, c);
    }
  }

  /** A slot that belongs after every slot of `t` also belongs after every slot of a selection from `t`. */
  lemma InsertAfterSelection(t: seq<Slot>, x: Slot, c: Criterion)
    requires Arranged(t)
    requires |t| == 0 || !Precedes(x, t[|t| - 1])
    ensures Insert(Select(t, c), x) == Select(t, c) + [x]
  {
    var st := Select(t, c);
    if |st| > 0 {
      var e := st[|st| - 1];
      assert e in multiset(st);
      SelectSubset(t, c);
      assert e in multiset(t);
      var k :| 0 <= k < |t| && t[k] == e;
      assert !Precedes(t[|t| - 1], t[k]) || k == |t| - 1;
      assert !Precedes(x, e);
    }
  }

  lemma {:induction false} SelectInsert(t: seq<Slot>, x: Slot, c: Criterion)
    requires Arranged(t)
    ensures Select(Insert(t, x), c) == if Meets(x, c) then Insert(Select(t, c), x) else Select(t, c)
    decreases |t|
  {
    if |t| == 0 || !Precedes(x, t[|t| - 1]) {
      assert Insert(t, x) == t + [x];
      SelectAppend(t, x, c);
      InsertAfterSelection(t, x, c);
    } else {
      var init, last := t[..|t| - 1], t[|t| - 1];
      assert t == init + [last];
      assert Insert(t, x) == Insert(init, x) + [last];
      assert Arranged(init);
      SelectInsert(init, x, c);
      SelectAppend(Insert(init, x), last, c);
      SelectAppend(init, last, c);
      var si, tail := Select(init, c), if Meets(last, c) then [last] else [];
      assert Select(Insert(t, x), c) == Select(Insert(init, x), c) + tail;
      assert Select(t, c) == si + tail;
      if Meets(x, c) {
        if Meets(last, c) {
          assert (si + [last])[..|si|] == si;
          assert Insert(si + [last], x) == Insert(si, x) + [last];
        } else {
          assert si + tail == si;
        }
      } else {
        assert Select(Insert(init, x), c) == si;
      }
    }
  }

  /** Selecting from the sorted slots is sorting the selected slots. */
  lemma {:induction false} SelectSort(s: seq<Slot>, c: Criterion)
    ensures Select(Sort(s), c) == Sort(Select(s, c))
    decreases |s|
  {
    if |s| > 0 {
      var init, last := s[..|s| - 1], s[|s| - 1];
      assert s == init + [last];
      SelectSort(init, c);
      assert Sort(s) == Insert(Sort(init), last);
      SortIsArrangedPermutation(init);
      SelectInsert(Sort(init), last, c);
      SelectAppend(init, last, c);
      var si := Select(init, c);
      if Meets(last, c) {
        assert Select(s, c) == si + [last];
        assert (si + [last])[..|si|] == si;
        assert Sort(si + [last]) == Insert(Sort(si), last);
      } else {
        assert Select(s, c) == si;
      }
    }
  }

  /** Stability: slots of equal order keep their relative positions, and the
      sort puts occupied slots before empty ones. */
  lemma SortIsStable(s: seq<Slot>, k: int)
    ensures Select(Sort(s), OrderIs(k)) == Select(s, OrderIs(k))
    ensures forall i, j :: 0 <= i < j < |s| && Sort(s)[i].None? ==> Sort(s)[j].None?
  {
    SortIsArrangedPermutation(s);
    SelectSort(s, OrderIs(k));
    SelectMeets(s, OrderIs(k));
    SortOfArranged(Select(s, OrderIs(k)));
  }

  /** An arranged sequence of occupied slots is its slots of order at most `c`
      followed by its slots of order above `c`. */
  lemma {:induction false} ArrangedSplits(t: seq<Slot>, c: int)
    requires Arranged(t)
    requires forall i :: 0 <= i < |t| ==> t[i].Some?
    ensures t == Select(t, OrderAtMost(c)) + Select(t, OrderAbove(c))
    decreases |t|
  {
    if |t| > 0 {
      var init, last := t[..|t| - 1], t[|t| - 1];
      assert t == init + [last];
      assert Arranged(init);
      ArrangedSplits(init, c);
      SelectAppend(init, last, OrderAtMost(c));
      SelectAppend(init, last, OrderAbove(c));
      if last.value.order <= c {
        forall i | 0 <= i < |init| ensures !Meets(init[i], OrderAbove(c)) {
          assert !Precedes(last, init[i]);
        }
        SelectAllOrNone(init, OrderAbove(c));
        SelectAllOrNone(init, OrderAtMost(c));
      }
    }
  }

  // ---------------------------------------------------------------------------
  // Reaping stale slots and folding the live modifiers.

  /** The slots with every stale one emptied: what `apply_modifiers_to_value` leaves. */
  function Reap(s: seq<Slot>, live: set<HandleId>): seq<Slot>
  {
    seq(|s|, i requires 0 <= i < |s| => if IsStale(s[i], live) then None else s[i])
  }

  /** Reaping empties exactly the stale slots: it leaves no stale slot, frees a
      slot whenever one was stale, and changes nothing when none was. */
  lemma ReapEmptiesStale(s: seq<Slot>, live: set<HandleId>)
    ensures |Reap(s, live)| == |s| && !HasStale(Reap(s, live), live)
    ensures HasStale(s, live) ==> Vacancies(Reap(s, live)) > 0
    ensures !HasStale(s, live) ==> Reap(s, live) == s
  {
    if HasStale(s, live) {
      var i :| 0 <= i < |s| && IsStale(s[i], live);
      assert Reap(s, live)[i] == None;
      assert None in multiset(Reap(s, live));
      VacanciesCounted(Reap(s, live));
    }
  }

  /** Reaping keeps the live slots, in their order. */
  lemma {:induction false} ReapKeepsLive(s: seq<Slot>, live: set<HandleId>)
    ensures Select(Reap(s, live), Live(live)) == Select(s, Live(live))
    decreases |s|
  {
    if |s| > 0 {
      var n := |s| - 1;
      ReapKeepsLive(s[..n], live);
      assert Reap(s, live)[..n] == Reap(s[..n], live);
      assert Meets(Reap(s, live)[n], Live(live)) <==> Meets(s[n], Live(live));
      assert Meets(s[n], Live(live)) ==> Reap(s, live)[n] == s[n];
    }
  }

  /** One step of the fold: an occupied slot applies its modifier. */
  function Step(o: Slot, v: real): real
  {
    match o
    case None => v
    case Some(m) => Apply(m.modifier, v)
  }

  /** `v` with the modifiers of the occupied slots of `t` applied from left to right. */
  function Compose(t: seq<Slot>, v: real): real
    decreases |t|
  {
    if |t| == 0 then v else Step(t[|t| - 1], Compose(t[..|t| - 1], v))
  }

  lemma {:induction false} ComposeConcat(a: seq<Slot>, b: seq<Slot>, v: real)
    ensures Compose(a + b, v) == Compose(b, Compose(a, v))
    decreases |b|
  {
    if |b| > 0 {
      var init := b[..|b| - 1];
      assert (a + b)[..|a + b| - 1] == a + init;
      assert (a + b)[|a + b| - 1] == b[|b| - 1];
      ComposeConcat(a, init, v);
    } else {
      assert a + b == a;
    }
  }

  /** The value a slot array stands for: `base` with the modifiers of its live
      slots applied in ascending order, ties in slot order. */
  function Eval(s: seq<Slot>, live: set<HandleId>, base: real): real
  {
    Compose(Sort(Select(s, Live(live))), base)
  }

  /** What a slot array's update pass leaves: sorted and reaped if some slot was
      stale, untouched otherwise. */
  function Maintained(s: seq<Slot>, live: set<HandleId>): seq<Slot>
  {
    if HasStale(s, live) then Reap(Sort(s), live) else s
  }

  /** Sorting the whole array, then folding its live slots, is the value the array
      stands for: the recompute applies the live modifiers in ascending order. */
  lemma RecomputeIsEval(s: seq<Slot>, live: set<HandleId>, base: real)
    ensures Compose(Select(Sort(s), Live(live)), base) == Eval(s, live, base)
  {
    SelectSort(s, Live(live));
  }

  /** Sorting and reaping changes neither the value of the array nor its live
      contents, and leaves no stale slot. */
  lemma RecomputeKeepsEval(s: seq<Slot>, live: set<HandleId>, base: real)
    ensures Eval(Reap(Sort(s), live), live, base) == Eval(s, live, base)
    ensures multiset(Select(Reap(Sort(s), live), Live(live))) == multiset(Select(s, Live(live)))
    ensures !HasStale(Reap(Sort(s), live), live)
  {
    ReapKeepsLive(Sort(s), live);
    ReapEmptiesStale(Sort(s), live);
    SelectSort(s, Live(live));
    SortIsArrangedPermutation(Select(s, Live(live)));
    SortOfArranged(Sort(Select(s, Live(live))));
  }

  /** The update pass changes neither the value of the array nor its live
      contents, and leaves no stale slot; it frees a slot whenever one was stale. */
  lemma MaintainedKeepsEval(s: seq<Slot>, live: set<HandleId>, base: real)
    ensures Eval(Maintained(s, live), live, base) == Eval(s, live, base)
    ensures multiset(Select(Maintained(s, live), Live(live))) == multiset(Select(s, Live(live)))
    ensures !HasStale(Maintained(s, live), live)
    ensures |Maintained(s, live)| == |s|
    ensures HasStale(s, live) ==> Vacancies(Maintained(s, live)) > 0
  {
    if HasStale(s, live) {
      RecomputeKeepsEval(s, live, base);
      ReapEmptiesStale(Sort(s), live);
      SortIsArrangedPermutation(s);
      assert HasStale(Sort(s), live) by {
        var i :| 0 <= i < |s| && IsStale(s[i], live);
        assert s[i] in multiset(Sort(s));
      }
    }
  }

  /** The value of a slot array depends only on which of its slots are live: the
      lazy read is right to keep its cache when handles were dropped (or issued)
      without leaving a stale slot behind. */
  lemma {:induction false} EvalIgnoresUnobservedChange(s: seq<Slot>, before: set<HandleId>, after: set<HandleId>, base: real)
    requires !HasStale(s, after)
    requires NoneRevived(s, before, after)
    requires !HasStale(s, before)
    ensures Eval(s, after, base) == Eval(s, before, base)
  {
    SelectCongruent(s, Live(after), Live(before));
  }

  /** With no live slot, the value is the base value. */
  lemma EvalOfNothingLive(s: seq<Slot>, live: set<HandleId>, base: real)
    requires forall i :: 0 <= i < |s| ==> !IsLive(s[i], live)
    ensures Eval(s, live, base) == base
  {
    SelectAllOrNone(s, Live(live));
  }

  /** Every occupied slot of `s` holds its modifier at the modifier's default order. */
  predicate AtDefaultOrders(s: seq<Slot>)
  {
    forall i :: 0 <= i < |s| && s[i].Some? ==> s[i].value.order == DefaultOrder(s[i].value.modifier)
  }

  lemma DefaultOrdersKept(s: seq<Slot>, t: seq<Slot>)
    requires multiset(t) <= multiset(s)
    requires AtDefaultOrders(s)
    ensures AtDefaultOrders(t)
  {
    forall i | 0 <= i < |t| && t[i].Some?
      ensures t[i].value.order == DefaultOrder(t[i].value.modifier)
    {
      assert t[i] in multiset(t);
      assert t[i] in multiset(s);
    }
  }

  /** Slots of one kind, all at their default order, are already arranged. */
  lemma OneKindIsArranged(t: seq<Slot>, c: Criterion)
    requires c == Flats || c == PercentAdds || c == PercentMultiplies
    requires forall i :: 0 <= i < |t| ==> Meets(t[i], c) && t[i].value.order == DefaultOrder(t[i].value.modifier)
    ensures Arranged(t)
  {
  }

  /** Arranged occupied slots at default orders are the Flat ones, then the
      PercentAdd ones, then the PercentMultiply ones. */
  lemma ArrangedByKind(t: seq<Slot>)
    requires Arranged(t)
    requires forall i :: 0 <= i < |t| ==> t[i].Some?
    requires AtDefaultOrders(t)
    ensures t == Select(t, Flats) + (Select(t, PercentAdds) + Select(t, PercentMultiplies))
  {
    ArrangedSplits(t, 0);
    KindCriteriaAgree(t);
    SelectCongruent(t, OrderAtMost(0), Flats);
    ArrangedAboveFlatsByKind(t);
  }

  lemma ArrangedAboveFlatsByKind(t: seq<Slot>)
    requires Arranged(t)
    requires AtDefaultOrders(t)
    ensures Select(t, OrderAbove(0)) == Select(t, PercentAdds) + Select(t, PercentMultiplies)
  {
    var high := Select(t, OrderAbove(0));
    SelectMeets(t, OrderAbove(0));
    SortOfArranged(t);
    SelectSort(t, OrderAbove(0));
    SortIsArrangedPermutation(high);
    ArrangedSplits(high, 1);
    KindCriteriaAgree(t);
    SelectSelect(t, OrderAbove(0), OrderAtMost(1), PercentAdds);
    SelectSelect(t, OrderAbove(0), OrderAbove(1), PercentMultiplies);
  }

  lemma KindCriteriaAgree(t: seq<Slot>)
    requires AtDefaultOrders(t)
    ensures forall i :: 0 <= i < |t| ==> (Meets(t[i], OrderAtMost(0)) <==> Meets(t[i], Flats))
    ensures forall i :: 0 <= i < |t| ==>
      (Meets(t[i], OrderAbove(0)) && Meets(t[i], OrderAtMost(1)) <==> Meets(t[i], PercentAdds))
    ensures forall i :: 0 <= i < |t| ==>
      (Meets(t[i], OrderAbove(0)) && Meets(t[i], OrderAbove(1)) <==> Meets(t[i], PercentMultiplies))
  {
    forall i | 0 <= i < |t| && t[i].Some?
      ensures t[i].value.order == DefaultOrder(t[i].value.modifier)
    {
    }
  }

  /** Sorting slots at default orders keeps each kind in slot order. */
  lemma SortKeepsKind(l: seq<Slot>, c: Criterion)
    requires c == Flats || c == PercentAdds || c == PercentMultiplies
    requires AtDefaultOrders(l)
    ensures Select(Sort(l), c) == Select(l, c)
  {
    SelectSort(l, c);
    SelectSubset(l, c);
    DefaultOrdersKept(l, Select(l, c));
    SelectMeets(l, c);
    OneKindIsArranged(Select(l, c), c);
    SortOfArranged(Select(l, c));
  }

  /** Sorting occupied slots at default orders groups them by kind, each kind in
      slot order. */
  lemma SortGroupsByKind(s: seq<Slot>, live: set<HandleId>)
    requires AtDefaultOrders(s)
    ensures var l := Select(s, Live(live));
      Sort(l) == Select(l, Flats) + (Select(l, PercentAdds) + Select(l, PercentMultiplies))
  {
    var l := Select(s, Live(live));
    SelectSubset(s, Live(live));
    DefaultOrdersKept(s, l);
    SortIsArrangedPermutation(l);
    DefaultOrdersKept(l, Sort(l));
    SelectSort(s, Live(live));
    SelectMeets(s, Live(live));
    SortMeets(l, Live(live));
    ArrangedByKind(Sort(l));
    SortKeepsKind(l, Flats);
    SortKeepsKind(l, PercentAdds);
    SortKeepsKind(l, PercentMultiplies);
  }

  /** With every occupied slot at its modifier's default order, the value is the
      base with all live Flat modifiers applied, then all PercentAdd ones, then
      all PercentMultiply ones, each group in slot order. */
  lemma DefaultOrderAppliesByKind(s: seq<Slot>, live: set<HandleId>, base: real)
    requires AtDefaultOrders(s)
    ensures var l := Select(s, Live(live));
      Eval(s, live, base)
      == Compose(Select(l, PercentMultiplies), Compose(Select(l, PercentAdds), Compose(Select(l, Flats), base)))
  {
    var l := Select(s, Live(live));
    var f, a, m := Select(l, Flats), Select(l, PercentAdds), Select(l, PercentMultiplies);
    SortGroupsByKind(s, live);
    ComposeConcat(f, a + m, base);
    ComposeConcat(a, m, Compose(f, base));
  }

  /** The sorted live slots are those of order at most `c`, sorted, followed by
      those of order above `c`, sorted. */
  lemma SortedLiveSplitsByOrder(s: seq<Slot>, live: set<HandleId>, c: int)
    ensures var l := Select(s, Live(live));
      Sort(l) == Sort(Select(l, OrderAtMost(c))) + Sort(Select(l, OrderAbove(c)))
  {
    var l := Select(s, Live(live));
    SelectSort(s, Live(live));
    SortIsArrangedPermutation(l);
    SelectMeets(s, Live(live));
    SortMeets(l, Live(live));
    ArrangedSplits(Sort(l), c);
    SelectSort(l, OrderAtMost(c));
    SelectSort(l, OrderAbove(c));
  }

  /** When the live slots observing `own` all come no later than `c` and those
      observing `added` all come after it, the sorted live slots are the sorted
      `own` slots followed by the sorted `added` ones. */
  lemma SortedLiveSplits(s: seq<Slot>, own: set<HandleId>, added: set<HandleId>, c: int)
    requires own !! added
    requires forall i :: 0 <= i < |s| && IsLive(s[i], own) ==> s[i].value.order <= c
    requires forall i :: 0 <= i < |s| && IsLive(s[i], added) ==> s[i].value.order > c
    ensures Sort(Select(s, Live(own + added))) == Sort(Select(s, Live(own))) + Sort(Select(s, Live(added)))
  {
    SortedLiveSplitsByOrder(s, own + added, c);
    SplitCriteriaAgree(s, own, added, c);
    SelectSelect(s, Live(own + added), OrderAtMost(c), Live(own));
    SelectSelect(s, Live(own + added), OrderAbove(c), Live(added));
  }

  lemma SplitCriteriaAgree(s: seq<Slot>, own: set<HandleId>, added: set<HandleId>, c: int)
    requires own !! added
    requires forall i :: 0 <= i < |s| && IsLive(s[i], own) ==> s[i].value.order <= c
    requires forall i :: 0 <= i < |s| && IsLive(s[i], added) ==> s[i].value.order > c
    ensures forall i :: 0 <= i < |s| ==>
      (Meets(s[i], Live(own + added)) && Meets(s[i], OrderAtMost(c)) <==> Meets(s[i], Live(own)))
    ensures forall i :: 0 <= i < |s| ==>
      (Meets(s[i], Live(own + added)) && Meets(s[i], OrderAbove(c)) <==> Meets(s[i], Live(added)))
  {
  }

  /** Under the same conditions, the value is the value of the `own` slots with
      the `added` ones applied on top of it. */
  lemma EvalSplitsAt(s: seq<Slot>, own: set<HandleId>, added: set<HandleId>, c: int, base: real)
    requires own !! added
    requires forall i :: 0 <= i < |s| && IsLive(s[i], own) ==> s[i].value.order <= c
    requires forall i :: 0 <= i < |s| && IsLive(s[i], added) ==> s[i].value.order > c
    ensures Eval(s, own + added, base) == Compose(Sort(Select(s, Live(added))), Eval(s, own, base))
  {
    SortedLiveSplits(s, own, added, c);
    ComposeConcat(Sort(Select(s, Live(own))), Sort(Select(s, Live(added))), base);
  }

  // ---------------------------------------------------------------------------
  // Queries over the slots.

  /** The first empty slot, if any: where an added modifier is written. */
  function FirstVacant(s: seq<Slot>): (r: Option<nat>)
    ensures r.None? <==> forall i :: 0 <= i < |s| ==> s[i].Some?
    ensures r.Some? ==> r.value < |s| && s[r.value].None? && forall i :: 0 <= i < r.value ==> s[i].Some?
    decreases |s|
  {
    if |s| == 0 then None
    else if s[0].None? then Some(0)
    else match FirstVacant(s[1..])
      case None => None
      case Some(k) => Some(k + 1)
  }

  /** Every slot after the first empty one is empty too: an added slot is
      written after every occupied one. */
  predicate VacantAfterFirst(s: seq<Slot>)
  {
    FirstVacant(s).None? || forall j :: FirstVacant(s).value < j < |s| ==> s[j].None?
  }

  /** A sorted array has its empty slots at the end. */
  lemma SortedVacantAfterFirst(s: seq<Slot>)
    ensures VacantAfterFirst(Sort(s))
  {
    SortIsArrangedPermutation(s);
    var t := Sort(s);
    if FirstVacant(t).Some? {
      var k := FirstVacant(t).value;
      forall j | k < j < |t| ensures t[j].None? {
        assert !Precedes(t[j], t[k]);
      }
    }
  }

  /** The highest order of an occupied slot, or None if every slot is empty. */
  function HighestOrderOf(s: seq<Slot>): (r: Option<int>)
    ensures r.None? <==> forall i :: 0 <= i < |s| ==> s[i].None?
    ensures r.Some? ==> forall i :: 0 <= i < |s| && s[i].Some? ==> s[i].value.order <= r.value
    ensures r.Some? ==> exists i :: 0 <= i < |s| && s[i].Some? && s[i].value.order == r.value
    decreases |s|
  {
    if |s| == 0 then None
    else
      var rest := HighestOrderOf(s[1..]);
      assert forall i :: 1 <= i < |s| ==> s[i] == s[1..][i - 1];
      match s[0]
      case None => rest
      case Some(m) =>
        if rest.Some? && rest.value > m.order then rest else Some(m.order)
  }

  /** The highest order of an occupied slot, or 0 if every slot is empty. */
  function HighestOrderOrZero(s: seq<Slot>): (r: int)
    ensures forall i :: 0 <= i < |s| && s[i].Some? ==> s[i].value.order <= r
    ensures (exists i :: 0 <= i < |s| && s[i].Some? && s[i].value.order == r)
            || (r == 0 && forall i :: 0 <= i < |s| ==> s[i].None?)
  {
    match HighestOrderOf(s)
    case None => 0
    case Some(k) => k
  }
}
