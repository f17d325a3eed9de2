/**
 * Reactive bindings and list reconcilers.
 *
 * A binding (`RxStream`) turns each emission of its source into one call of
 * the `realizeDom` callback its subscriber supplies, after an optional
 * `untilFirst` value. A list reconciler (`RxStreamChildren` with its append
 * and sync policies) keeps a tracked list of refs for the elements it added
 * to a parent, reports each pass as `{added, updated, removed}`, and assigns
 * `style.order` hints from a sorted copy of that list.
 */
module RxStreams {
  import opened Wrappers
  import opened Lists
  import opened Dom
  import opened VirtualDom
  import opened ElementFactory

  // ---------------------------------------------------------------------
  // Bindings
  // ---------------------------------------------------------------------

  /** The value `finalize` hands to `realizeDom`: the wrapper's result when a wrapper is set. */
  function Wrapped<T>(s: RxStream<T>, v: T): T {
    if s.wrapper.Some? then s.wrapper.value(v) else v
  }

  /** One `finalize` call: the value handed to `realizeDom`, and the domain data handed to `sideEffects`. */
  datatype Finalization<T> = Finalization(value: T, domainData: Data)

  /** `this.untilFirst && ...`: an `untilFirst` is finalised only when it is truthy. */
  predicate InitialApplies<T>(s: RxStream<T>, truthy: T -> bool) {
    s.untilFirst.Some? && truthy(s.untilFirst.value)
  }

  /** The `finalize` call made for an emission `d`: `vDomMap`, then the wrapper; `d` is the domain data. */
  function EmissionFinalization<T>(s: RxStream<T>, d: Data): Finalization<T> {
    Finalization(Wrapped(s, s.vDomMap(d)), d)
  }

  /** The `finalize` call made for `untilFirst`; its domain data is `undefined`. */
  function InitialFinalizations<T>(s: RxStream<T>, truthy: T -> bool): (r: seq<Finalization<T>>)
    ensures |r| == if InitialApplies(s, truthy) then 1 else 0
  {
    if InitialApplies(s, truthy) then [Finalization(Wrapped(s, s.untilFirst.value), Undefined)] else []
  }

  /**
   * Every `finalize` call `subscribe` makes, in order: the truthy
   * `untilFirst` first, then one per emission. `truthy` is the truthiness
   * of the binding's value type.
   */
  function Finalizations<T>(s: RxStream<T>, truthy: T -> bool): (r: seq<Finalization<T>>)
    ensures |r| == |s.source| + (if InitialApplies(s, truthy) then 1 else 0)
  {
    InitialFinalizations(s, truthy)
      + seq(|s.source|, i requires 0 <= i < |s.source| => EmissionFinalization(s, s.source[i]))
  }

  /**
   * `subscribe(realizeDom)` with the source delivered synchronously: the
   * `finalize` calls in the order they happen. The subscriber applies each
   * call's value with its own `realizeDom`.
   */
  method Subscribe<T>(s: RxStream<T>, truthy: T -> bool) returns (calls: seq<Finalization<T>>)
    ensures calls == Finalizations(s, truthy)
  {
    calls := InitialFinalizations(s, truthy);
    var i := 0;
    while i < |s.source|
      invariant 0 <= i <= |s.source|
      invariant calls == InitialFinalizations(s, truthy)
        + seq(i, j requires 0 <= j < i => EmissionFinalization(s, s.source[j]))
    {
      calls := calls + [EmissionFinalization(s, s.source[i])];
      i := i + 1;
    }
  }

  /** The domain data of a sequence of `finalize` calls, as `sideEffects` receives it. */
  function SideEffectData<T>(calls: seq<Finalization<T>>): (r: seq<Data>)
    ensures |r| == |calls|
    ensures forall i | 0 <= i < |calls| :: r[i] == calls[i].domainData
  {
    seq(|calls|, i requires 0 <= i < |calls| => calls[i].domainData)
  }

  /**
   * `sideEffects` sees `undefined` once for a truthy `untilFirst`, then
   * every emission in order: one call per emission, plus one.
   */
  lemma SideEffectsSeeUntilFirstThenEmissions<T>(s: RxStream<T>, truthy: T -> bool)
    ensures SideEffectData(Finalizations(s, truthy))
            == (if InitialApplies(s, truthy) then [Undefined] else []) + s.source
  {
    var r := SideEffectData(Finalizations(s, truthy));
    var e := (if InitialApplies(s, truthy) then [Undefined] else []) + s.source;
    assert |r| == |e|;
    forall i | 0 <= i < |r|
      ensures r[i] == e[i]
    {
    }
  }

  /**
   * The value of each call: a truthy `untilFirst`, wrapped, comes first;
   * emission `k` gives `wrapper(vDomMap(d))` (or `vDomMap(d)` without a
   * wrapper) at position `k`, shifted by one after an `untilFirst`.
   */
  lemma FinalizedValues<T>(s: RxStream<T>, truthy: T -> bool, k: nat)
    requires k < |s.source|
    ensures InitialApplies(s, truthy) ==>
              Finalizations(s, truthy)[0].value == Wrapped(s, s.untilFirst.value)
    ensures var off := if InitialApplies(s, truthy) then 1 else 0;
            Finalizations(s, truthy)[off + k].value
            == (if s.wrapper.Some? then s.wrapper.value(s.vDomMap(s.source[k])) else s.vDomMap(s.source[k]))
  {
  }

  /**
   * The `ClassType` field a value carries: "Stream$" on an `RxStream`,
   * "ChildrenStream$" on a list reconciler, none on anything else.
   */
  function ClassTypeOf(p: Prop): Option<string> {
    match p
    case AttrStream(_) => Some("Stream$")
    case ChildrenRxStream(_) => Some("Stream$")
    case ChildrenStreamInstance(_) => Some("ChildrenStream$")
    case _ => None
  }

  /** `instanceOfStream(obj)`: a truthy value whose `ClassType` is "Stream$" — exactly the `RxStream` instances. */
  function InstanceOfStream(p: Prop): (r: bool)
    ensures r <==> p.AttrStream? || p.ChildrenRxStream?
  {
    PropTruthy(p) && ClassTypeOf(p) == Some("Stream$")
  }

  /**
   * `instanceOfChildrenStream(obj)`: a truthy value whose `ClassType` is
   * "ChildrenStream$" — exactly the list reconcilers, never an `RxStream`.
   */
  function InstanceOfChildrenStream(p: Prop): (r: bool)
    ensures r <==> p.ChildrenStreamInstance?
    ensures r ==> !InstanceOfStream(p)
  {
    PropTruthy(p) && ClassTypeOf(p) == Some("ChildrenStream$")
  }

  // ---------------------------------------------------------------------
  // Ordering of tracked refs
  // ---------------------------------------------------------------------

  /**
   * A comparator whose "not after" relation (`cmp(a, b) <= 0`) is total and
   * transitive, as `Array.prototype.sort` expects of its argument.
   */
  ghost predicate TotalPreorder(cmp: (Data, Data) -> int) {
    (forall a, b :: cmp(a, b) <= 0 || cmp(b, a) <= 0)
    && (forall a, b, c :: cmp(a, b) <= 0 && cmp(b, c) <= 0 ==> cmp(a, c) <= 0)
  }

  /** Every ref is not after any later one. */
  ghost predicate SortedBy(r: seq<Ref>, cmp: (Data, Data) -> int) {
    forall i, j | 0 <= i < j < |r| :: cmp(r[i].domainData, r[j].domainData) <= 0
  }

  /** Inserts `x` before the first ref it is not after, which keeps equal refs in their order. */
  function Insert(x: Ref, t: seq<Ref>, cmp: (Data, Data) -> int): (r: seq<Ref>)
    ensures multiset(r) == multiset(t) + multiset{x}
  {
    if |t| == 0 || cmp(x.domainData, t[0].domainData) <= 0 then [x] + t
    else
      assert t == [t[0]] + t[1..];
      [t[0]] + Insert(x, t[1..], cmp)
  }

  /**
   * `[...refs].sort((a, b) => cmp(a.domainData, b.domainData))`: a stable
   * sort of a copy. It holds the same refs as `s`.
   */
  function SortRefs(s: seq<Ref>, cmp: (Data, Data) -> int): (r: seq<Ref>)
    ensures multiset(r) == multiset(s)
  {
    if |s| == 0 then []
    else
      assert s == [s[0]] + s[1..];
      Insert(s[0], SortRefs(s[1..], cmp), cmp)
  }

  lemma {:induction false} InsertSorted(x: Ref, t: seq<Ref>, cmp: (Data, Data) -> int)
    requires TotalPreorder(cmp) && SortedBy(t, cmp)
    ensures SortedBy(Insert(x, t, cmp), cmp)
  {
    if |t| == 0 {
    } else if cmp(x.domainData, t[0].domainData) <= 0 {
      PrependSorted(x, t, cmp);
    } else {
      assert SortedBy(t[1..], cmp) by {
        assert forall k | 0 <= k < |t[1..]| :: t[1..][k] == t[k + 1];
      }
      InsertSorted(x, t[1..], cmp);
      assert forall k | 0 <= k < |t[1..]| :: cmp(t[0].domainData, t[1..][k].domainData) <= 0 by {
        assert forall k | 0 <= k < |t[1..]| :: t[1..][k] == t[k + 1];
      }
      InsertKeepsLowerBound(x, t[1..], cmp, t[0].domainData);
      PrependLowest(t[0], Insert(x, t[1..], cmp), cmp);
    }
  }

  /** A ref not after the first of a sorted sequence can go before it. */
  lemma PrependSorted(x: Ref, t: seq<Ref>, cmp: (Data, Data) -> int)
    requires TotalPreorder(cmp) && SortedBy(t, cmp)
    requires |t| > 0 && cmp(x.domainData, t[0].domainData) <= 0
    ensures SortedBy([x] + t, cmp)
  {
    forall k | 0 <= k < |t|
      ensures cmp(x.domainData, t[k].domainData) <= 0
    {
      if k > 0 {
        assert cmp(t[0].domainData, t[k].domainData) <= 0;
      }
    }
    PrependLowest(x, t, cmp);
  }

  /** A ref not after any ref of a sorted sequence can go before them all. */
  lemma PrependLowest(x: Ref, t: seq<Ref>, cmp: (Data, Data) -> int)
    requires SortedBy(t, cmp)
    requires forall k | 0 <= k < |t| :: cmp(x.domainData, t[k].domainData) <= 0
    ensures SortedBy([x] + t, cmp)
  {
    var r := [x] + t;
    forall i, j | 0 <= i < j < |r|
      ensures cmp(r[i].domainData, r[j].domainData) <= 0
    {
      assert r[j] == t[j - 1];
      if i > 0 {
        assert r[i] == t[i - 1];
      }
    }
  }

  /** A datum not after `x` nor after any ref of `t` is not after any ref of `Insert(x, t, cmp)`. */
  lemma {:induction false} InsertKeepsLowerBound(x: Ref, t: seq<Ref>, cmp: (Data, Data) -> int, lo: Data)
    requires cmp(lo, x.domainData) <= 0
    requires forall k | 0 <= k < |t| :: cmp(lo, t[k].domainData) <= 0
    ensures forall j | 0 <= j < |Insert(x, t, cmp)| :: cmp(lo, Insert(x, t, cmp)[j].domainData) <= 0
  {
    if |t| > 0 && cmp(x.domainData, t[0].domainData) > 0 {
      var rest := Insert(x, t[1..], cmp);
      assert forall k | 0 <= k < |t[1..]| :: t[1..][k] == t[k + 1];
      InsertKeepsLowerBound(x, t[1..], cmp, lo);
      assert forall j | 0 < j < |rest| + 1 :: ([t[0]] + rest)[j] == rest[j - 1];
    }
  }

  /** With a total preorder the sorted copy is in order. */
  lemma {:induction false} SortRefsSorted(s: seq<Ref>, cmp: (Data, Data) -> int)
    requires TotalPreorder(cmp)
    ensures SortedBy(SortRefs(s, cmp), cmp)
  {
    if |s| > 0 {
      SortRefsSorted(s[1..], cmp);
      InsertSorted(s[0], SortRefs(s[1..], cmp), cmp);
    }
  }

  /** The elements of the sorted copy: the order hint of an element is its index here. */
  function SortedElements(refs: seq<Ref>, cmp: (Data, Data) -> int): seq<Element> {
    Elements(SortRefs(refs, cmp))
  }

  /** No two tracked refs hold the same element. */
  predicate DistinctElements(refs: seq<Ref>) {
    forall i, j | 0 <= i < j < |refs| :: refs[i].element != refs[j].element
  }

  /** Two sequences holding the same refs hold the same elements. */
  lemma SameElements(a: seq<Ref>, b: seq<Ref>)
    requires multiset(a) == multiset(b)
    ensures forall e :: e in Elements(a) <==> e in Elements(b)
  {
    forall e | e in Elements(a)
      ensures e in Elements(b)
    {
      var i :| 0 <= i < |a| && a[i].element == e;
      assert a[i] in multiset(b);
      var j :| 0 <= j < |b| && b[j] == a[i];
      assert Elements(b)[j] == e;
    }
    forall e | e in Elements(b)
      ensures e in Elements(a)
    {
      var i :| 0 <= i < |b| && b[i].element == e;
      assert b[i] in multiset(a);
      var j :| 0 <= j < |a| && a[j] == b[i];
      assert Elements(a)[j] == e;
    }
  }

  /**
   * Order hints: a tracked element's hint is an index into the tracked
   * list, an untracked element's hint is -1.
   */
  lemma HintRange(refs: seq<Ref>, cmp: (Data, Data) -> int, e: Element)
    ensures e in Elements(refs) ==> 0 <= IndexOf(SortedElements(refs, cmp), e) < |refs|
    ensures e !in Elements(refs) ==> IndexOf(SortedElements(refs, cmp), e) == -1
  {
    SameElements(refs, SortRefs(refs, cmp));
  }

  /**
   * The hints follow the comparator: when `a`'s data comes strictly before
   * `b`'s, `a`'s element gets a smaller hint than `b`'s.
   */
  lemma HintsFollowOrder(refs: seq<Ref>, cmp: (Data, Data) -> int, a: Ref, b: Ref)
    requires TotalPreorder(cmp) && DistinctElements(refs)
    requires a in refs && b in refs
    requires cmp(b.domainData, a.domainData) > 0
    ensures 0 <= IndexOf(SortedElements(refs, cmp), a.element)
              < IndexOf(SortedElements(refs, cmp), b.element)
  {
    var sorted := SortRefs(refs, cmp);
    var es := SortedElements(refs, cmp);
    SortedPosition(refs, cmp, a);
    SortedPosition(refs, cmp, b);
    SortRefsSorted(refs, cmp);
    var p := IndexOf(es, a.element);
    var q := IndexOf(es, b.element);
    assert a != b by {
      assert cmp(a.domainData, a.domainData) <= 0;
    }
    OrderedPositions(sorted, cmp, p, q);
  }

  /** In a sorted sequence, a ref strictly after another in the order sits after it. */
  lemma OrderedPositions(sorted: seq<Ref>, cmp: (Data, Data) -> int, p: nat, q: nat)
    requires SortedBy(sorted, cmp) && p < |sorted| && q < |sorted| && p != q
    requires cmp(sorted[q].domainData, sorted[p].domainData) > 0
    ensures p < q
  {
    var x, y := sorted[q].domainData, sorted[p].domainData;
    assert q < p ==> cmp(x, y) <= 0;
  }

  /** A tracked ref sits, in the sorted copy, at the hint of its element. */
  lemma SortedPosition(refs: seq<Ref>, cmp: (Data, Data) -> int, a: Ref)
    requires DistinctElements(refs) && a in refs
    ensures 0 <= IndexOf(SortedElements(refs, cmp), a.element)
    ensures SortRefs(refs, cmp)[IndexOf(SortedElements(refs, cmp), a.element)] == a
  {
    var sorted := SortRefs(refs, cmp);
    var es := Elements(sorted);
    var k :| 0 <= k < |refs| && refs[k] == a;
    assert a in multiset(sorted) by {
      assert a in multiset(refs);
    }
    var j :| 0 <= j < |sorted| && sorted[j] == a;
    assert es[j] == a.element;
    var p := IndexOf(es, a.element);
    assert sorted[p].element == a.element;
    assert sorted[p] in multiset(refs) by {
      assert sorted[p] in multiset(sorted);
    }
    var i :| 0 <= i < |refs| && refs[i] == sorted[p];
    assert i == k by {
      assert refs[i].element == refs[k].element;
    }
  }

  // ---------------------------------------------------------------------
  // Sync diff
  // ---------------------------------------------------------------------

  /** `list.find(item => same(item, c))`: the first item matching `c`, if any. */
  function Find(list: seq<Data>, c: Data, same: (Data, Data) -> bool): (r: Option<Data>)
    ensures r.None? <==> forall i | 0 <= i < |list| :: !same(list[i], c)
    ensures r.Some? ==> r.value in list && same(r.value, c)
  {
    if |list| == 0 then None
    else if same(list[0], c) then Some(list[0])
    else Find(list[1..], c, same)
  }

  /**
   * `isNotInList` as written: `find(...) === undefined`, which also holds
   * when the item found is itself `undefined`.
   */
  predicate IsNotInListAsWritten(list: seq<Data>, c: Data, same: (Data, Data) -> bool) {
    var f := Find(list, c, same);
    f.None? || f.value == Undefined
  }

  /** `isNotInList`, corrected: no item of the list matches `c`. */
  predicate IsNotInList(list: seq<Data>, c: Data, same: (Data, Data) -> bool) {
    forall i | 0 <= i < |list| :: !same(list[i], c)
  }

  /** An `undefined` domain datum is found in a list holding it, yet the written test calls it absent. */
  lemma FoundUndefinedReadsAsAbsent(same: (Data, Data) -> bool)
    requires forall a, b :: same(a, b) <==> a == b
    ensures IsNotInListAsWritten([Undefined], Undefined, same)
    ensures !IsNotInList([Undefined], Undefined, same)
  {
    assert same(Undefined, Undefined);
    assert [Undefined][0] == Undefined;
    assert Find([Undefined], Undefined, same) == Some(Undefined);
  }

  /** Without `undefined` in the list, the written test is the intended one. */
  lemma IsNotInListAgreesWithoutUndefined(list: seq<Data>, c: Data, same: (Data, Data) -> bool)
    requires Undefined !in list
    ensures IsNotInListAsWritten(list, c, same) == IsNotInList(list, c, same)
  {
  }

  /** The comparison operator is an equivalence relation (as `===` is). */
  ghost predicate Equivalence(same: (Data, Data) -> bool) {
    Reflexive(same) && Symmetric(same)
    && (forall a, b, c :: same(a, b) && same(b, c) ==> same(a, c))
  }

  ghost predicate Reflexive(same: (Data, Data) -> bool) {
    forall a :: same(a, a)
  }

  ghost predicate Symmetric(same: (Data, Data) -> bool) {
    forall a, b :: same(a, b) ==> same(b, a)
  }

  /** The default comparison operator, `===`. */
  function StrictEquals(a: Data, b: Data): bool {
    a == b
  }

  lemma StrictEqualsIsEquivalence()
    ensures Equivalence(StrictEquals)
  {
    var f: (Data, Data) -> bool := StrictEquals;
    assert forall a, b :: f(a, b) == (a == b);
  }

  /** The expected items no tracked datum matches: the data of the refs a sync pass adds. */
  function NewData(actual: seq<Data>, expected: seq<Data>, same: (Data, Data) -> bool): seq<Data> {
    Filter(expected, c => IsNotInList(actual, c, same))
  }

  /** The test a sync pass removes a tracked ref by: its datum matches no expected item. */
  function Unmatched(expected: seq<Data>, same: (Data, Data) -> bool): Ref -> bool {
    (r: Ref) => IsNotInList(expected, r.domainData, same)
  }

  /** The tracked refs whose datum matches no expected item: the refs a sync pass removes. */
  function DeletedRefs(tracked: seq<Ref>, expected: seq<Data>, same: (Data, Data) -> bool): seq<Ref> {
    Filter(tracked, Unmatched(expected, same))
  }

  /** The complement of a test on refs. */
  function Not(p: Ref -> bool): Ref -> bool {
    (x: Ref) => !p(x)
  }

  /** The tracked refs whose datum matches no deleted datum: those a sync pass keeps tracking. */
  function KeptRefs(tracked: seq<Ref>, deletedData: seq<Data>, same: (Data, Data) -> bool): seq<Ref> {
    Filter(tracked, (r: Ref) => IsNotInList(deletedData, r.domainData, same))
  }

  /** `NewData` with the membership test as written. */
  function NewDataAsWritten(actual: seq<Data>, expected: seq<Data>, same: (Data, Data) -> bool): seq<Data> {
    Filter(expected, c => IsNotInListAsWritten(actual, c, same))
  }

  /** `DeletedRefs` with the membership test as written. */
  function DeletedRefsAsWritten(tracked: seq<Ref>, expected: seq<Data>, same: (Data, Data) -> bool): seq<Ref> {
    Filter(tracked, (r: Ref) => IsNotInListAsWritten(expected, r.domainData, same))
  }

  /** `KeptRefs` with the membership test as written. */
  function KeptRefsAsWritten(tracked: seq<Ref>, deletedData: seq<Data>, same: (Data, Data) -> bool): seq<Ref> {
    Filter(tracked, (r: Ref) => IsNotInListAsWritten(deletedData, r.domainData, same))
  }

  /**
   * The written diff on a tracked ref whose datum is `undefined`, when the
   * next emission is `[undefined]` again: the datum is added a second time,
   * the tracked ref is removed from the host, yet it stays tracked, so two
   * refs are tracked for one item and one of them is detached. The corrected
   * diff sees that nothing changed.
   */
  lemma UndefinedItemDivergesAsWritten(r1: Ref)
    requires r1.domainData == Undefined
    ensures NewDataAsWritten([Undefined], [Undefined], StrictEquals) == [Undefined]
    ensures DeletedRefsAsWritten([r1], [Undefined], StrictEquals) == [r1]
    ensures KeptRefsAsWritten([r1], [Undefined], StrictEquals) == [r1]
    ensures NewData([Undefined], [Undefined], StrictEquals) == []
    ensures DeletedRefs([r1], [Undefined], StrictEquals) == []
    ensures KeptRefs([r1], [], StrictEquals) == [r1]
  {
    assert StrictEquals(Undefined, Undefined);
    FoundUndefinedReadsAsAbsent(StrictEquals);
    assert [r1][1..] == [];
    assert [Undefined][1..] == [];
  }

  /** Without `undefined` among the tracked data, the written and corrected additions agree. */
  lemma NewDataAgreesWithoutUndefined(actual: seq<Data>, expected: seq<Data>, same: (Data, Data) -> bool)
    requires Undefined !in actual
    ensures NewDataAsWritten(actual, expected, same) == NewData(actual, expected, same)
  {
    forall i | 0 <= i < |expected|
      ensures IsNotInListAsWritten(actual, expected[i], same) == IsNotInList(actual, expected[i], same)
    {
      IsNotInListAgreesWithoutUndefined(actual, expected[i], same);
    }
    FilterCongruent(expected, c => IsNotInListAsWritten(actual, c, same), c => IsNotInList(actual, c, same));
  }

  /** Without `undefined` in the emission, the written and corrected removals agree. */
  lemma DeletedRefsAgreeWithoutUndefined(tracked: seq<Ref>, expected: seq<Data>, same: (Data, Data) -> bool)
    requires Undefined !in expected
    ensures DeletedRefsAsWritten(tracked, expected, same) == DeletedRefs(tracked, expected, same)
  {
    forall i | 0 <= i < |tracked|
      ensures IsNotInListAsWritten(expected, tracked[i].domainData, same)
              == IsNotInList(expected, tracked[i].domainData, same)
    {
      IsNotInListAgreesWithoutUndefined(expected, tracked[i].domainData, same);
    }
    FilterCongruent(tracked, (r: Ref) => IsNotInListAsWritten(expected, r.domainData, same),
                    Unmatched(expected, same));
  }

  /** Without `undefined` among the removed data, the written and corrected kept refs agree. */
  lemma KeptRefsAgreeWithoutUndefined(tracked: seq<Ref>, deletedData: seq<Data>, same: (Data, Data) -> bool)
    requires Undefined !in deletedData
    ensures KeptRefsAsWritten(tracked, deletedData, same) == KeptRefs(tracked, deletedData, same)
  {
    forall i | 0 <= i < |tracked|
      ensures IsNotInListAsWritten(deletedData, tracked[i].domainData, same)
              == IsNotInList(deletedData, tracked[i].domainData, same)
    {
      IsNotInListAgreesWithoutUndefined(deletedData, tracked[i].domainData, same);
    }
    FilterCongruent(tracked, (r: Ref) => IsNotInListAsWritten(deletedData, r.domainData, same),
                    (r: Ref) => IsNotInList(deletedData, r.domainData, same));
  }

  /**
   * The diff does not collapse duplicates: an expected item no tracked
   * datum matches is added as many times as it occurs in the emission.
   */
  lemma {:induction false} NewDataKeepsDuplicates(actual: seq<Data>, expected: seq<Data>, same: (Data, Data) -> bool, x: Data)
    ensures multiset(NewData(actual, expected, same))[x]
            == if IsNotInList(actual, x, same) then multiset(expected)[x] else 0
  {
    if |expected| > 0 {
      NewDataKeepsDuplicates(actual, expected[1..], same, x);
      assert expected == [expected[0]] + expected[1..];
    }
  }

  /** On the first pass nothing is tracked, so every item of the emission is added, duplicates included. */
  lemma FirstPassAddsEveryItem(expected: seq<Data>, same: (Data, Data) -> bool)
    ensures NewData([], expected, same) == expected
  {
    FilterAll(expected, c => IsNotInList([], c, same));
  }

  /**
   * With an equivalence as comparison operator, the refs a pass keeps
   * tracking are exactly the tracked refs that are not removed: those
   * whose datum matches an expected item.
   */
  lemma KeptAreTheUndeleted(tracked: seq<Ref>, expected: seq<Data>, same: (Data, Data) -> bool)
    requires Equivalence(same)
    ensures KeptRefs(tracked, DomainDataOf(DeletedRefs(tracked, expected, same)), same)
            == Filter(tracked, Not(Unmatched(expected, same)))
  {
    var deleted := DeletedRefs(tracked, expected, same);
    var deletedData := DomainDataOf(deleted);
    forall i | 0 <= i < |tracked|
      ensures IsNotInList(deletedData, tracked[i].domainData, same)
              == !IsNotInList(expected, tracked[i].domainData, same)
    {
      var x := tracked[i];
      if IsNotInList(expected, x.domainData, same) {
        assert x in deleted;
        var k :| 0 <= k < |deleted| && deleted[k] == x;
        assert same(deletedData[k], x.domainData);
      } else {
        var e :| 0 <= e < |expected| && same(expected[e], x.domainData);
        forall k | 0 <= k < |deletedData|
          ensures !same(deletedData[k], x.domainData)
        {
          assert IsNotInList(expected, deleted[k].domainData, same);
          assert !same(expected[e], deletedData[k]);
        }
      }
    }
    FilterCongruent(tracked, (r: Ref) => IsNotInList(deletedData, r.domainData, same),
                    Not(Unmatched(expected, same)));
  }

  /** Every datum of `data` matches some item of `items`. */
  predicate AllMatched(data: seq<Data>, items: seq<Data>, same: (Data, Data) -> bool) {
    forall i | 0 <= i < |data| :: !IsNotInList(items, data[i], same)
  }

  /**
   * With an equivalence as comparison operator, a sync pass leaves the
   * tracked data and the emission matching each other: every datum tracked
   * afterwards (kept, then added) matches an item of the emission, and every
   * item of the emission matches a datum tracked afterwards.
   */
  lemma TrackedMatchEmission(tracked: seq<Ref>, expected: seq<Data>, same: (Data, Data) -> bool)
    requires Equivalence(same)
    ensures var kept := KeptRefs(tracked, DomainDataOf(DeletedRefs(tracked, expected, same)), same);
            var after := DomainDataOf(kept) + NewData(DomainDataOf(tracked), expected, same);
            AllMatched(after, expected, same) && AllMatched(expected, after, same)
  {
    var kept := KeptRefs(tracked, DomainDataOf(DeletedRefs(tracked, expected, same)), same);
    KeptAreTheUndeleted(tracked, expected, same);
    TrackedAreExpected(tracked, expected, same, kept);
    ExpectedAreTracked(tracked, expected, same, kept);
  }

  lemma TrackedAreExpected(tracked: seq<Ref>, expected: seq<Data>, same: (Data, Data) -> bool, kept: seq<Ref>)
    requires Reflexive(same)
    requires kept == Filter(tracked, Not(Unmatched(expected, same)))
    ensures AllMatched(DomainDataOf(kept) + NewData(DomainDataOf(tracked), expected, same), expected, same)
  {
    KeptAreExpected(tracked, expected, same, kept);
    AddedAreExpected(DomainDataOf(tracked), expected, same);
    AllMatchedAppend(DomainDataOf(kept), NewData(DomainDataOf(tracked), expected, same), expected, same);
  }

  /** A kept ref's datum matches an item of the emission: that is why it was kept. */
  lemma KeptAreExpected(tracked: seq<Ref>, expected: seq<Data>, same: (Data, Data) -> bool, kept: seq<Ref>)
    requires kept == Filter(tracked, Not(Unmatched(expected, same)))
    ensures AllMatched(DomainDataOf(kept), expected, same)
  {
    forall i | 0 <= i < |kept|
      ensures !IsNotInList(expected, DomainDataOf(kept)[i], same)
    {
      assert Not(Unmatched(expected, same))(kept[i]);
    }
  }

  /** An added datum is an item of the emission, which matches itself. */
  lemma AddedAreExpected(actual: seq<Data>, expected: seq<Data>, same: (Data, Data) -> bool)
    requires Reflexive(same)
    ensures AllMatched(NewData(actual, expected, same), expected, same)
  {
    var added := NewData(actual, expected, same);
    forall i | 0 <= i < |added|
      ensures !IsNotInList(expected, added[i], same)
    {
      var j :| 0 <= j < |expected| && expected[j] == added[i];
      assert same(expected[j], added[i]);
    }
  }

  /** Matching distributes over concatenation of the matched data. */
  lemma AllMatchedAppend(a: seq<Data>, b: seq<Data>, items: seq<Data>, same: (Data, Data) -> bool)
    requires AllMatched(a, items, same) && AllMatched(b, items, same)
    ensures AllMatched(a + b, items, same)
  {
    forall i | 0 <= i < |a + b|
      ensures !IsNotInList(items, (a + b)[i], same)
    {
      if i >= |a| {
        assert (a + b)[i] == b[i - |a|];
      }
    }
  }

  lemma ExpectedAreTracked(tracked: seq<Ref>, expected: seq<Data>, same: (Data, Data) -> bool, kept: seq<Ref>)
    requires Reflexive(same) && Symmetric(same)
    requires kept == Filter(tracked, Not(Unmatched(expected, same)))
    ensures AllMatched(expected, DomainDataOf(kept) + NewData(DomainDataOf(tracked), expected, same), same)
  {
    var added := NewData(DomainDataOf(tracked), expected, same);
    forall j | 0 <= j < |expected|
      ensures !IsNotInList(DomainDataOf(kept) + added, expected[j], same)
    {
      if IsNotInList(DomainDataOf(tracked), expected[j], same) {
        MatchedByAdded(DomainDataOf(kept), added, expected[j], same);
      } else {
        MatchedByKept(tracked, expected, same, kept, added, j);
      }
    }
  }

  /** An item that was added is matched, by itself, after the pass. */
  lemma MatchedByAdded(keptData: seq<Data>, added: seq<Data>, x: Data, same: (Data, Data) -> bool)
    requires Reflexive(same) && x in added
    ensures !IsNotInList(keptData + added, x, same)
  {
    var k :| 0 <= k < |added| && added[k] == x;
    var after := keptData + added;
    assert after[|keptData| + k] == x;
    assert same(x, x);
  }

  /** An item some tracked datum matched is matched, by that kept datum, after the pass. */
  lemma MatchedByKept(tracked: seq<Ref>, expected: seq<Data>, same: (Data, Data) -> bool,
                      kept: seq<Ref>, added: seq<Data>, j: nat)
    requires Symmetric(same) && j < |expected|
    requires kept == Filter(tracked, Not(Unmatched(expected, same)))
    requires !IsNotInList(DomainDataOf(tracked), expected[j], same)
    ensures !IsNotInList(DomainDataOf(kept) + added, expected[j], same)
  {
    var x := expected[j];
    var t :| 0 <= t < |tracked| && same(DomainDataOf(tracked)[t], x);
    var r := tracked[t];
    assert same(x, r.domainData);
    assert Not(Unmatched(expected, same))(r);
    var k :| 0 <= k < |kept| && kept[k] == r;
    var after := DomainDataOf(kept) + added;
    assert after[k] == r.domainData;
  }

  /** With `===`, the data tracked after a pass are exactly the items of the emission. */
  lemma TrackedDataAreTheEmission(tracked: seq<Ref>, expected: seq<Data>)
    ensures var kept := KeptRefs(tracked, DomainDataOf(DeletedRefs(tracked, expected, StrictEquals)), StrictEquals);
            var after := DomainDataOf(kept) + NewData(DomainDataOf(tracked), expected, StrictEquals);
            forall x :: x in after <==> x in expected
  {
    StrictEqualsIsEquivalence();
    TrackedMatchEmission(tracked, expected, StrictEquals);
    var kept := KeptRefs(tracked, DomainDataOf(DeletedRefs(tracked, expected, StrictEquals)), StrictEquals);
    var after := DomainDataOf(kept) + NewData(DomainDataOf(tracked), expected, StrictEquals);
    forall x | x in after
      ensures x in expected
    {
      var i :| 0 <= i < |after| && after[i] == x;
      assert !IsNotInList(expected, after[i], StrictEquals);
    }
    forall x | x in expected
      ensures x in after
    {
      var j :| 0 <= j < |expected| && expected[j] == x;
      assert !IsNotInList(after, expected[j], StrictEquals);
    }
  }

  /** The domain data of two lists of refs, one after the other. */
  lemma DomainDataOfAppend(a: seq<Ref>, b: seq<Ref>)
    ensures DomainDataOf(a + b) == DomainDataOf(a) + DomainDataOf(b)
  {
    assert forall i | 0 <= i < |a + b| :: DomainDataOf(a + b)[i] == (DomainDataOf(a) + DomainDataOf(b))[i];
  }

  /**
   * One sync pass on a list that was in step with the sync list, with an
   * equivalence as comparison operator: removing the unmatched refs from
   * `tracked + added` leaves exactly the refs the sync list keeps, and the
   * data tracked afterwards match the emission both ways.
   */
  lemma SyncPassResult(tracked: seq<Ref>, added: seq<Ref>, expected: seq<Data>, same: (Data, Data) -> bool)
    requires Equivalence(same) && Distinct(tracked + added)
    requires DomainDataOf(added) == NewData(DomainDataOf(tracked), expected, same)
    ensures var kept := KeptRefs(tracked, DomainDataOf(DeletedRefs(tracked, expected, same)), same);
            RemoveEach(tracked + added, DeletedRefs(tracked, expected, same)) == kept + added
            && AllMatched(DomainDataOf(kept + added), expected, same)
            && AllMatched(expected, DomainDataOf(kept + added), same)
  {
    var kept := KeptRefs(tracked, DomainDataOf(DeletedRefs(tracked, expected, same)), same);
    RemovingFilteredRefs(tracked, added, Unmatched(expected, same));
    KeptAreTheUndeleted(tracked, expected, same);
    DomainDataOfAppend(kept, added);
    TrackedMatchEmission(tracked, expected, same);
  }

  // ---------------------------------------------------------------------
  // Removing refs
  // ---------------------------------------------------------------------

  /** `elements.forEach(e => e.remove())` on a parent's children. */
  function WithoutAll(children: seq<Element>, elements: seq<Element>): (r: seq<Element>)
    ensures forall i | 0 <= i < |r| :: r[i] in children && r[i] !in elements
    decreases |elements|
  {
    if |elements| == 0 then children
    else WithoutAll(Without(children, elements[0]), elements[1..])
  }

  /**
   * Removing, one by one, the refs of `tracked` that satisfy `p` from
   * `tracked + added` leaves the other tracked refs in order, then `added`.
   */
  lemma RemovingFilteredRefs(tracked: seq<Ref>, added: seq<Ref>, p: Ref -> bool)
    requires Distinct(tracked + added)
    ensures RemoveEach(tracked + added, Filter(tracked, p)) == Filter(tracked, Not(p)) + added
  {
    var s := tracked + added;
    var d := Filter(tracked, p);
    assert Distinct(tracked) by {
      forall i, j | 0 <= i < j < |tracked|
        ensures tracked[i] != tracked[j]
      {
        assert s[i] == tracked[i] && s[j] == tracked[j];
      }
    }
    FilterKeepsDistinct(tracked, p);
    RemoveEachIsMinus(s, d);
    MinusAppend(tracked, added, d);
    forall i | 0 <= i < |added|
      ensures added[i] !in d
    {
      forall k | 0 <= k < |tracked|
        ensures tracked[k] != added[i]
      {
        assert s[k] == tracked[k] && s[|tracked| + i] == added[i];
      }
    }
    MinusDisjoint(added, d);
    MinusFiltered(tracked, p);
  }

  /** Removing the refs that satisfy `p` keeps those that do not. */
  lemma {:induction false} MinusFiltered(tracked: seq<Ref>, p: Ref -> bool)
    requires Distinct(tracked)
    ensures Minus(tracked, Filter(tracked, p)) == Filter(tracked, Not(p))
  {
    if |tracked| > 0 {
      var a := tracked[0];
      var t := tracked[1..];
      MinusFiltered(t, p);
      forall i | 0 <= i < |t|
        ensures t[i] != a
      {
        assert tracked[i + 1] == t[i];
      }
      if p(a) {
        MinusCongruent(t, [a] + Filter(t, p), Filter(t, p));
      }
    }
  }

  /** A filtered list of refs with distinct elements keeps them distinct. */
  lemma {:induction false} FilterKeepsElementsDistinct(t: seq<Ref>, p: Ref -> bool)
    requires DistinctElements(t)
    ensures DistinctElements(Filter(t, p))
  {
    if |t| > 0 {
      FilterKeepsElementsDistinct(t[1..], p);
      var rest := Filter(t[1..], p);
      forall k | 0 <= k < |rest|
        ensures rest[k].element != t[0].element
      {
        var j :| 0 <= j < |t[1..]| && t[1..][j] == rest[k];
        assert t[j + 1] == rest[k];
      }
    }
  }

  /** A filtered sequence of distinct refs holds distinct refs. */
  lemma {:induction false} FilterKeepsDistinct(t: seq<Ref>, p: Ref -> bool)
    requires Distinct(t)
    ensures Distinct(Filter(t, p))
  {
    if |t| > 0 {
      FilterKeepsDistinct(t[1..], p);
      var rest := Filter(t[1..], p);
      forall k | 0 <= k < |rest|
        ensures rest[k] != t[0]
      {
        var j :| 0 <= j < |t[1..]| && t[1..][j] == rest[k];
        assert t[j + 1] == rest[k];
      }
    }
  }
  /** Refs made after `old` was built are new to it: appending them keeps the tracked refs and elements distinct. */
  lemma AppendFreshRefs(tracked: seq<Ref>, added: seq<Ref>)
    requires Distinct(tracked) && DistinctElements(tracked)
    requires Distinct(added) && DistinctElements(added)
    requires forall i, j | 0 <= i < |tracked| && 0 <= j < |added| ::
               tracked[i] != added[j] && tracked[i].element != added[j].element
    ensures Distinct(tracked + added) && DistinctElements(tracked + added)
  {
    DistinctAppend(tracked, added);
    var s := tracked + added;
    forall i, j | 0 <= i < j < |s|
      ensures s[i].element != s[j].element
    {
      if j < |tracked| {
        assert s[i] == tracked[i] && s[j] == tracked[j];
      } else if i < |tracked| {
        assert s[i] == tracked[i] && s[j] == added[j - |tracked|];
      } else {
        assert s[i] == added[i - |tracked|] && s[j] == added[j - |tracked|];
      }
    }
  }

  /** `splice(i, 1)` keeps the refs distinct, and their elements. */
  lemma SpliceKeepsDistinct(s: seq<Ref>, i: int)
    requires -1 <= i < |s|
    requires Distinct(s) && DistinctElements(s)
    ensures Distinct(SpliceOne(s, i)) && DistinctElements(SpliceOne(s, i))
  {
    if |s| > 0 {
      var k := if i >= 0 then i else |s| - 1;
      var r := s[..k] + s[k + 1..];
      assert SpliceOne(s, i) == r;
      forall a, b | 0 <= a < b < |r|
        ensures r[a] != r[b] && r[a].element != r[b].element
      {
        if b < k {
          assert r[a] == s[a] && r[b] == s[b];
        } else if a < k {
          assert r[a] == s[a] && r[b] == s[b + 1];
        } else {
          assert r[a] == s[a + 1] && r[b] == s[b + 1];
        }
      }
    }
  }

  /** Removing refs one by one keeps the refs distinct, and their elements. */
  lemma {:induction false} RemoveEachKeepsDistinct(s: seq<Ref>, xs: seq<Ref>)
    requires Distinct(s) && DistinctElements(s)
    ensures Distinct(RemoveEach(s, xs)) && DistinctElements(RemoveEach(s, xs))
    decreases |xs|
  {
    if |xs| > 0 {
      SpliceKeepsDistinct(s, IndexOf(s, xs[0]));
      RemoveEachKeepsDistinct(SpliceOne(s, IndexOf(s, xs[0])), xs[1..]);
    }
  }

  // ---------------------------------------------------------------------
  // List reconcilers
  // ---------------------------------------------------------------------

  /**
   * The `display` of a parent. The computed style is approximated by the
   * inline style: its `display` entry when that is a string, "" otherwise.
   */
  function Display(e: Element): string
    reads e`style
  {
    if "display" in e.style && e.style["display"].Str? then e.style["display"].s else ""
  }

  /** What `reorder` writes to the console for a parent of that `display`. */
  function ReorderLog(display: string): seq<Event> {
    if display == "flex" || display == "grid" then [] else [Logged(ReorderNeedsFlexOrGrid)]
  }

  /** The elements appended so far, and the next one, are among all the elements to append. */
  lemma PrefixFrame(cur: seq<Element>, x: Element, p: seq<Element>, es: seq<Element>, i: nat)
    requires i < |es| && cur == p + es[..i] && x == es[i]
    ensures forall e | e in cur + [x] :: e in p + es
  {
    assert p + es[..i] + [es[i]] == p + es[..i + 1];
    forall e | e in p + es[..i + 1]
      ensures e in p + es
    {
      if e !in p {
        var k :| 0 <= k <= i && es[k] == e;
      }
    }
  }

  /** The prefix one longer is the prefix followed by the next element. */
  lemma PrefixSnoc<T>(s: seq<T>, i: nat)
    requires i < |s|
    ensures s[..i + 1] == s[..i] + [s[i]]
  {
  }

  /**
   * `${sorted.indexOf(e)}`: the order hint of `e` among sorted elements,
   * kept as the number whose decimal string the source writes.
   */
  function HintIn(sorted: seq<Element>, e: Element): Data {
    Num(IndexOf(sorted, e))
  }

  /** `n` copies of `events`, one after another. */
  function Repeat(events: seq<Event>, n: nat): (r: seq<Event>)
    ensures events == [] ==> r == []
  {
    if n == 0 then [] else Repeat(events, n - 1) + events
  }

  /** Only console output. */
  predicate Diagnostics(events: seq<Event>) {
    forall i | 0 <= i < |events| :: events[i].Logged?
  }

  lemma {:induction false} RepeatDiagnostics(events: seq<Event>, n: nat)
    requires Diagnostics(events)
    ensures Diagnostics(Repeat(events, n))
  {
    if n > 0 {
      RepeatDiagnostics(events, n - 1);
      var r := Repeat(events, n - 1);
      assert forall i | 0 <= i < |r + events| :: (r + events)[i] == if i < |r| then r[i] else events[i - |r|];
    }
  }

  /** A call of a list policy's side-effect callback. */
  predicate IsUpdate(e: Event) {
    e.Updated?
  }

  /**
   * A list reconciler (`RxStreamAppend` or `RxStreamSync`) bound to its
   * options. `children` is the list `addChildRef` and `removeChildRef`
   * maintain; `actualElements` is the sync policy's own list of the refs it
   * rendered, which it rebuilds after each pass.
   */
  class ChildrenStream {
    const policy: ListPolicy
    const source: seq<seq<Data>>
    const vDomMap: Data -> VDom
    const sideEffects: bool
    const orderOperator: Option<(Data, Data) -> int>
    var children: seq<Ref>
    var actualElements: seq<Ref>

    constructor (options: ListOptions)
      ensures policy == options.policy && source == options.source && vDomMap == options.vDomMap
      ensures sideEffects == options.sideEffects && orderOperator == options.orderOperator
      ensures children == [] && actualElements == []
      ensures Valid() && Synced()
    {
      policy := options.policy;
      source := options.source;
      vDomMap := options.vDomMap;
      sideEffects := options.sideEffects;
      orderOperator := options.orderOperator;
      children := [];
      actualElements := [];
    }

    /** The tracked refs are distinct and hold distinct elements. */
    predicate Valid()
      reads this
    {
      Distinct(children) && DistinctElements(children)
    }

    /** The sync policy's own list of refs is the tracked list. */
    predicate Synced()
      reads this
    {
      actualElements == children
    }

    /** The `style.order` `reorder` gives `e` while `refs` are tracked: its index in their sorted elements (-1 when untracked). */
    function OrderHint(refs: seq<Ref>, e: Element): Data
      requires orderOperator.Some?
    {
      HintIn(SortedElements(refs, orderOperator.value), e)
    }

    /** The console output of one `reorder` call on a parent of that `display`. */
    function ReorderOutput(display: string): seq<Event> {
      if orderOperator.Some? then ReorderLog(display) else []
    }

    /** `e` shows the order hint `reorder` gives it while `refs` are tracked. */
    predicate HintShown(e: Element, refs: seq<Ref>)
      requires orderOperator.Some?
      reads e`order
    {
      e.order == OrderHint(refs, e)
    }

    /**
     * `reorder(parent)`: without an order operator nothing happens.
     * Otherwise a console error when the parent is neither flex nor grid,
     * and every child of the parent gets its order hint; the tracked list
     * itself is not sorted.
     */
    method Reorder(parent: Element) returns (log: seq<Event>)
      modifies set e | e in parent.children && orderOperator.Some? :: e`order
      ensures log == ReorderOutput(Display(parent))
      ensures orderOperator.Some? ==> forall e | e in parent.children :: HintShown(e, children)
    {
      if orderOperator.None? {
        return [];
      }
      log := ReorderLog(Display(parent));
      var sorted := SortedElements(children, orderOperator.value);
      var kids := parent.children;
      var i := 0;
      while i < |kids|
        invariant 0 <= i <= |kids| && kids == old(parent.children)
        invariant forall e | e in kids[..i] :: HintShown(e, children)
      {
        var e := kids[i];
        assert e in old(parent.children);
        e.order := HintIn(sorted, e);
        assert kids[..i + 1] == kids[..i] + [e];
        i := i + 1;
      }
      assert kids[..i] == kids;
    }

    /** `addChildRef(parent, ref)`: tracked last, appended last, then `reorder`. */
    method AddChildRef(parent: Element, ref: Ref) returns (log: seq<Event>)
      modifies this`children, parent`children
      modifies set e | e in parent.children + [ref.element] && orderOperator.Some? :: e`order
      ensures children == old(children) + [ref]
      ensures parent.children == old(parent.children) + [ref.element]
      ensures Display(parent) == old(Display(parent))
      ensures log == ReorderOutput(Display(parent))
      ensures orderOperator.Some? ==> forall e | e in parent.children :: HintShown(e, children)
    {
      children := children + [ref];
      parent.AppendChild(ref.element);
      log := Reorder(parent);
    }

    /**
     * `refs.forEach(ref => addChildRef(parent, ref))`. Each call reorders
     * every child, so after the last one every child shows the hint of the
     * final tracked list.
     */
    method AddChildRefs(parent: Element, refs: seq<Ref>) returns (log: seq<Event>)
      modifies this`children, parent`children
      modifies set e | e in parent.children + Elements(refs) && orderOperator.Some? :: e`order
      ensures children == old(children) + refs
      ensures parent.children == old(parent.children) + Elements(refs)
      ensures Display(parent) == old(Display(parent))
      ensures log == Repeat(ReorderOutput(Display(parent)), |refs|)
      ensures |refs| == 0 ==> forall e | e in old(parent.children) :: e.order == old(e.order)
      ensures orderOperator.Some? && |refs| > 0 ==> forall e | e in parent.children :: HintShown(e, children)
    {
      log := [];
      if |refs| == 0 {
        return;
      }
      var i := 0;
      while i < |refs|
        invariant 0 <= i <= |refs|
        invariant children == old(children) + refs[..i]
        invariant parent.children == old(parent.children) + Elements(refs)[..i]
        invariant Display(parent) == old(Display(parent))
        invariant log == Repeat(ReorderOutput(Display(parent)), i)
        invariant orderOperator.Some? && i > 0 ==> forall e | e in parent.children :: HintShown(e, children)
      {
        var l := AddNextRef(parent, refs, i, old(children), old(parent.children));
        log := log + l;
        i := i + 1;
      }
      assert refs[..i] == refs;
      assert Elements(refs)[..i] == Elements(refs);
    }

    /** One step of `refs.forEach(ref => addChildRef(parent, ref))`: the ref at `i` is added. */
    method AddNextRef(parent: Element, refs: seq<Ref>, i: nat, ghost before: seq<Ref>, ghost beforeKids: seq<Element>)
      returns (log: seq<Event>)
      requires i < |refs|
      requires children == before + refs[..i]
      requires parent.children == beforeKids + Elements(refs)[..i]
      modifies this`children, parent`children
      modifies set e | e in beforeKids + Elements(refs) && orderOperator.Some? :: e`order
      ensures children == before + refs[..i + 1]
      ensures parent.children == beforeKids + Elements(refs)[..i + 1]
      ensures Display(parent) == old(Display(parent))
      ensures log == ReorderOutput(Display(parent))
      ensures orderOperator.Some? ==> forall e | e in parent.children :: HintShown(e, children)
    {
      PrefixFrame(parent.children, refs[i].element, beforeKids, Elements(refs), i);
      log := AddChildRef(parent, refs[i]);
      PrefixSnoc(refs, i);
      PrefixSnoc(Elements(refs), i);
    }

    /**
     * `removeChildRef(ref)`: the first occurrence of `ref` leaves the tracked
     * list (`splice(indexOf(ref), 1)`) and its element leaves the parent.
     */
    method RemoveChildRef(parent: Element, ref: Ref)
      modifies this`children, parent`children
      ensures children == SpliceOne(old(children), IndexOf(old(children), ref))
      ensures parent.children == Without(old(parent.children), ref.element)
    {
      children := SpliceOne(children, IndexOf(children, ref));
      parent.RemoveChild(ref.element);
    }

    /** `refs.forEach(ref => removeChildRef(ref))`. */
    method RemoveChildRefs(parent: Element, refs: seq<Ref>)
      modifies this`children, parent`children
      ensures children == RemoveEach(old(children), refs)
      ensures parent.children == WithoutAll(old(parent.children), Elements(refs))
    {
      var i := 0;
      while i < |refs|
        invariant 0 <= i <= |refs|
        invariant RemoveEach(children, refs[i..]) == RemoveEach(old(children), refs)
        invariant WithoutAll(parent.children, Elements(refs)[i..]) == WithoutAll(old(parent.children), Elements(refs))
      {
        assert refs[i..][0] == refs[i] && refs[i..][1..] == refs[i + 1..];
        assert Elements(refs)[i..][0] == refs[i].element && Elements(refs)[i..][1..] == Elements(refs)[i + 1..];
        RemoveChildRef(parent, refs[i]);
        i := i + 1;
      }
    }

    /** The error of the first description `vDomMap` gives for `data` that `render` rejects, if any. */
    function FirstRenderError(data: seq<Data>): Option<RenderError> {
      if |data| == 0 then None
      else if RenderedTag(vDomMap(data[0])).Failure? then Some(RenderedTag(vDomMap(data[0])).error)
      else FirstRenderError(data[1..])
    }

    /** A pass fails exactly when some description is rejected. */
    lemma {:induction false} FirstRenderErrorNone(data: seq<Data>)
      ensures FirstRenderError(data).None? <==> forall i | 0 <= i < |data| :: RenderedTag(vDomMap(data[i])).Success?
    {
      if |data| > 0 && RenderedTag(vDomMap(data[0])).Success? {
        FirstRenderErrorNone(data[1..]);
        assert forall i | 0 < i < |data| :: data[i] == data[1..][i - 1];
      }
    }

    /** A failed pass fails with the error of the first rejected description. */
    lemma {:induction false} FirstRenderErrorIsFirst(data: seq<Data>)
      requires FirstRenderError(data).Some?
      ensures exists k | 0 <= k < |data| ::
                RenderedTag(vDomMap(data[k])) == Failure(FirstRenderError(data).value)
                && forall j | 0 <= j < k :: RenderedTag(vDomMap(data[j])).Success?
    {
      if RenderedTag(vDomMap(data[0])).Success? {
        FirstRenderErrorIsFirst(data[1..]);
        var k :| 0 <= k < |data[1..]| && RenderedTag(vDomMap(data[1..][k])) == Failure(FirstRenderError(data).value)
                && forall j | 0 <= j < k :: RenderedTag(vDomMap(data[1..][j])).Success?;
        assert data[k + 1] == data[1..][k];
        assert forall j | 0 < j < k + 1 :: data[j] == data[1..][j - 1];
      } else {
        assert RenderedTag(vDomMap(data[0])) == Failure(FirstRenderError(data).value);
      }
    }

    /** The first error from position `i` on is that of `data[i]`, or the first after it. */
    lemma FirstRenderErrorFrom(data: seq<Data>, i: nat)
      requires i < |data|
      ensures FirstRenderError(data[i..])
              == if RenderedTag(vDomMap(data[i])).Failure? then Some(RenderedTag(vDomMap(data[i])).error)
                 else FirstRenderError(data[i + 1..])
    {
      assert data[i..][0] == data[i] && data[i..][1..] == data[i + 1..];
    }

    /**
     * The error a pass of `update` over `data` throws while `actual` is the
     * sync list, if any: the first rejected description among the data the
     * pass renders, which are all of `data` for an append list and the new
     * data for a sync list.
     */
    function PassError(actual: seq<Ref>, data: seq<Data>): Option<RenderError> {
      if policy.Append? then FirstRenderError(data)
      else FirstRenderError(NewData(DomainDataOf(actual), data, policy.comparisonOperator))
    }

    /** A pass throws only the error of a description of its own emission. */
    lemma PassErrorFromEmission(actual: seq<Ref>, data: seq<Data>)
      requires PassError(actual, data).Some?
      ensures exists k | 0 <= k < |data| :: RenderedTag(vDomMap(data[k])) == Failure(PassError(actual, data).value)
    {
      var rendered := if policy.Append? then data else NewData(DomainDataOf(actual), data, policy.comparisonOperator);
      FirstRenderErrorIsFirst(rendered);
      var k :| 0 <= k < |rendered| && RenderedTag(vDomMap(rendered[k])) == Failure(FirstRenderError(rendered).value);
      assert rendered[k] in data;
      var j :| 0 <= j < |data| && data[j] == rendered[k];
    }

    /**
     * `ref` is the ref a pass makes for `d`: the datum, `vDomMap(d)`, and an
     * element of the tag `render` picks for that description, with the `is`
     * name the factory gives that tag.
     */
    predicate RefFor(ref: Ref, d: Data) {
      ref.domainData == d && ref.virtualDOM == vDomMap(d)
      && RenderedTag(vDomMap(d)) == Success(ref.element.tag)
      && Lookup(ref.element.tag) == Success(ref.element.isName)
    }

    /**
     * `data.map(d => ({domainData: d, virtualDOM: vDomMap(d), element: render(vDomMap(d))}))`:
     * all the refs of a pass are rendered before the first is added, so a
     * render error leaves nothing half done.
     */
    method RenderAll(data: seq<Data>, ghost before: seq<Ref>) returns (r: Result<seq<Ref>, RenderError>)
      requires Distinct(before) && DistinctElements(before)
      ensures r.Failure? <==> FirstRenderError(data).Some?
      ensures r.Failure? ==> r.error == FirstRenderError(data).value
      ensures r.Success? ==> |r.value| == |data| && DomainDataOf(r.value) == data
      ensures r.Success? ==> forall i | 0 <= i < |data| ::
                RefFor(r.value[i], data[i]) && fresh(r.value[i]) && fresh(r.value[i].element)
                && r.value[i].element.vDom == Some(r.value[i].virtualDOM)
      ensures r.Success? ==> Distinct(before + r.value) && DistinctElements(before + r.value)
    {
      var refs: seq<Ref> := [];
      var i := 0;
      while i < |data|
        invariant 0 <= i <= |data| && |refs| == i
        invariant FirstRenderError(data) == FirstRenderError(data[i..])
        invariant RefsFor(refs, data[..i])
        invariant forall j | 0 <= j < i ::
                    fresh(refs[j]) && fresh(refs[j].element) && refs[j].element.vDom == Some(refs[j].virtualDOM)
        invariant Distinct(before + refs) && DistinctElements(before + refs)
      {
        FirstRenderErrorFrom(data, i);
        var ref := RenderRef(data[i], before + refs);
        if ref.Failure? {
          return Failure(ref.error);
        }
        AppendFreshRefs(before + refs, [ref.value]);
        assert before + refs + [ref.value] == before + (refs + [ref.value]);
        RefsForSnoc(refs, data, i, ref.value);
        refs := refs + [ref.value];
        i := i + 1;
      }
      assert data[..i] == data;
      return Success(refs);
    }

    /** `refs` are the refs a pass makes for `data`, one for one. */
    predicate RefsFor(refs: seq<Ref>, data: seq<Data>) {
      |refs| == |data| && forall j | 0 <= j < |data| :: RefFor(refs[j], data[j])
    }

    /** The ref for the next datum extends the refs made so far. */
    lemma RefsForSnoc(refs: seq<Ref>, data: seq<Data>, i: nat, ref: Ref)
      requires i < |data| && RefsFor(refs, data[..i]) && RefFor(ref, data[i])
      ensures RefsFor(refs + [ref], data[..i + 1])
    {
      assert data[..i + 1] == data[..i] + [data[i]];
    }

    /** The ref of one datum: `vDomMap(d)` rendered, or the error `render` raises for it. */
    method RenderRef(d: Data, ghost before: seq<Ref>) returns (r: Result<Ref, RenderError>)
      ensures r.Failure? <==> RenderedTag(vDomMap(d)).Failure?
      ensures r.Failure? ==> r.error == RenderedTag(vDomMap(d)).error
      ensures r.Success? ==> RefFor(r.value, d) && fresh(r.value) && fresh(r.value.element)
                             && r.value.element.vDom == Some(r.value.virtualDOM)
      ensures r.Success? ==> forall j | 0 <= j < |before| :: before[j] != r.value && before[j].element != r.value.element
    {
      var v := vDomMap(d);
      var e, _ := Render(Some(v));
      if e.Failure? {
        return Failure(e.error);
      }
      var ref := new Ref(d, v, e.value);
      return Success(ref);
    }

    /**
     * `RxStreamAppend.update(parent, data)`: every datum is rendered, then
     * each ref is added in turn, so the new elements follow the old ones in
     * the order of `data`. A render error leaves everything as it was.
     */
    method AppendUpdate(parent: Element, data: seq<Data>) returns (r: Result<RenderingUpdate, RenderError>, log: seq<Event>)
      requires Valid()
      modifies this`children, parent`children
      modifies set e | e in parent.children && orderOperator.Some? :: e`order
      ensures r.Failure? <==> FirstRenderError(data).Some?
      ensures r.Failure? ==> r.error == FirstRenderError(data).value && log == []
                             && children == old(children) && parent.children == old(parent.children)
      ensures r.Success? ==> r.value.updated == [] && r.value.removed == []
                             && DomainDataOf(r.value.added) == data
                             && (forall i | 0 <= i < |data| ::
                                   RefFor(r.value.added[i], data[i]) && fresh(r.value.added[i]) && fresh(r.value.added[i].element))
                             && children == old(children) + r.value.added
                             && parent.children == old(parent.children) + Elements(r.value.added)
                             && log == Repeat(ReorderOutput(Display(parent)), |data|)
      ensures Valid()
      ensures orderOperator.Some? && r.Success? && |data| > 0 ==>
                forall e | e in parent.children :: HintShown(e, children)
    {
      var rendered := RenderAll(data, children);
      if rendered.Failure? {
        return Failure(rendered.error), [];
      }
      var added := rendered.value;
      log := AddChildRefs(parent, added);
      r := Success(RenderingUpdate(added, [], []));
    }

    /**
     * `RxStreamSync.update(parent, expected)`: the expected items no tracked
     * datum matches are rendered and added; then the tracked refs whose
     * datum matches no expected item are removed; when nothing was added or
     * removed the children are reordered; the sync list becomes the kept
     * refs followed by the added ones. A render error leaves everything as
     * it was.
     */
    method SyncUpdate(parent: Element, expected: seq<Data>) returns (r: Result<RenderingUpdate, RenderError>, log: seq<Event>)
      requires policy.Sync? && Valid()
      modifies this`children, this`actualElements, parent`children
      modifies set e | e in parent.children && orderOperator.Some? :: e`order
      ensures var newData := NewData(DomainDataOf(old(actualElements)), expected, policy.comparisonOperator);
              (r.Failure? <==> FirstRenderError(newData).Some?)
              && (r.Failure? ==> r.error == FirstRenderError(newData).value)
              && (r.Success? ==> DomainDataOf(r.value.added) == newData)
              && (r.Success? ==> forall i | 0 <= i < |newData| ::
                    RefFor(r.value.added[i], newData[i]) && fresh(r.value.added[i]) && fresh(r.value.added[i].element))
      ensures r.Failure? ==> log == [] && children == old(children) && actualElements == old(actualElements)
                             && parent.children == old(parent.children)
      ensures r.Success? ==>
                var same := policy.comparisonOperator;
                var added := r.value.added;
                var removed := r.value.removed;
                r.value.updated == [] && removed == DeletedRefs(old(actualElements), expected, same)
                && children == RemoveEach(old(children) + added, removed)
                && parent.children == WithoutAll(old(parent.children) + Elements(added), Elements(removed))
                && actualElements == KeptRefs(old(actualElements), DomainDataOf(removed), same) + added
                && log == Repeat(ReorderOutput(Display(parent)), |added|)
                          + (if |added| == 0 && |removed| == 0 then ReorderOutput(Display(parent)) else [])
                && (orderOperator.Some? && |added| == 0 && |removed| == 0 ==>
                      forall e | e in parent.children :: HintShown(e, children))
      ensures Valid()
      ensures r.Success? ==> Distinct(old(children) + r.value.added)
      ensures r.Success? ==> forall e | e in parent.children :: e in old(parent.children) + Elements(r.value.added)
      ensures orderOperator.Some? && r.Success? && |r.value.added| > 0 ==>
                forall e | e in parent.children :: HintShown(e, old(children) + r.value.added)
      ensures r.Success? && |r.value.added| == 0 && |r.value.removed| > 0 ==>
                forall e | e in old(parent.children) :: e.order == old(e.order)
    {
      var same := policy.comparisonOperator;
      var newData := NewData(DomainDataOf(actualElements), expected, same);
      var rendered := RenderAll(newData, children);
      if rendered.Failure? {
        return Failure(rendered.error), [];
      }
      var added := rendered.value;
      var deleted;
      deleted, log := ApplySync(parent, expected, added);
      r := Success(RenderingUpdate(added, [], deleted));
    }

    /**
     * A sync pass once its new refs are rendered: they are added, then the
     * tracked refs whose datum matches no expected item are removed, then
     * the children are reordered when nothing was added or removed, and the
     * sync list becomes the kept refs followed by the added ones.
     */
    method ApplySync(parent: Element, expected: seq<Data>, added: seq<Ref>) returns (deleted: seq<Ref>, log: seq<Event>)
      requires policy.Sync?
      requires Distinct(children + added) && DistinctElements(children + added)
      modifies this`children, this`actualElements, parent`children
      modifies set e | e in parent.children + Elements(added) && orderOperator.Some? :: e`order
      ensures deleted == DeletedRefs(old(actualElements), expected, policy.comparisonOperator)
      ensures children == RemoveEach(old(children) + added, deleted)
              && parent.children == WithoutAll(old(parent.children) + Elements(added), Elements(deleted))
              && actualElements == KeptRefs(old(actualElements), DomainDataOf(deleted), policy.comparisonOperator) + added
              && log == Repeat(ReorderOutput(Display(parent)), |added|)
                        + (if |added| == 0 && |deleted| == 0 then ReorderOutput(Display(parent)) else [])
              && (orderOperator.Some? && |added| == 0 && |deleted| == 0 ==>
                    forall e | e in parent.children :: HintShown(e, children))
      ensures Valid()
      ensures forall e | e in parent.children :: e in old(parent.children) + Elements(added)
      ensures orderOperator.Some? && |added| > 0 ==>
                forall e | e in parent.children :: HintShown(e, old(children) + added)
      ensures |added| == 0 && |deleted| > 0 ==> forall e | e in old(parent.children) :: e.order == old(e.order)
    {
      log := AddChildRefs(parent, added);
      deleted := DeletedRefs(actualElements, expected, policy.comparisonOperator);
      var l := RemoveAndReorder(parent, deleted, |added| == 0, old(children) + added);
      log := log + l;
      Retrack(deleted, added);
    }

    /** The sync list after a pass: the refs it keeps, then those it added. */
    method Retrack(deleted: seq<Ref>, added: seq<Ref>)
      requires policy.Sync?
      modifies this`actualElements
      ensures actualElements == KeptRefs(old(actualElements), DomainDataOf(deleted), policy.comparisonOperator) + added
    {
      actualElements := KeptRefs(actualElements, DomainDataOf(deleted), policy.comparisonOperator) + added;
    }


    /**
     * The second half of a sync pass: `deleted.forEach(ref => removeChildRef(ref))`,
     * then `reorder` when the pass neither added nor removed anything.
     * Otherwise the remaining children keep the hints they showed, those
     * computed for `shown`.
     */
    method RemoveAndReorder(parent: Element, deleted: seq<Ref>, noneAdded: bool, ghost shown: seq<Ref>) returns (log: seq<Event>)
      requires Valid()
      requires orderOperator.Some? && !noneAdded ==> forall e | e in parent.children :: HintShown(e, shown)
      modifies this`children, parent`children
      modifies set e | e in parent.children && orderOperator.Some? :: e`order
      ensures children == RemoveEach(old(children), deleted)
      ensures parent.children == WithoutAll(old(parent.children), Elements(deleted))
      ensures forall e | e in parent.children :: e in old(parent.children)
      ensures Valid()
      ensures Display(parent) == old(Display(parent))
      ensures log == if noneAdded && |deleted| == 0 then ReorderOutput(Display(parent)) else []
      ensures orderOperator.Some? && !noneAdded ==> forall e | e in parent.children :: HintShown(e, shown)
      ensures orderOperator.Some? && noneAdded && |deleted| == 0 ==>
                forall e | e in parent.children :: HintShown(e, children)
      ensures !(noneAdded && |deleted| == 0) ==> forall e | e in old(parent.children) :: e.order == old(e.order)
    {
      RemoveEachKeepsDistinct(children, deleted);
      RemoveChildRefs(parent, deleted);
      if noneAdded && |deleted| == 0 {
        log := Reorder(parent);
      } else {
        log := [];
      }
    }

    /**
     * `this.update(parent, data)`, dispatched on the policy. The tracked list
     * stays valid, the pass writes only console output, and every new child
     * of the parent is a fresh element. An append pass tracks the data of the
     * emission after the old ones. A sync pass with an equivalence as
     * comparison operator keeps the sync list in step with the tracked list,
     * and leaves the tracked data and the emission matching each other.
     */
    method Update(parent: Element, data: seq<Data>) returns (r: Result<RenderingUpdate, RenderError>, log: seq<Event>)
      requires Valid()
      modifies this`children, this`actualElements, parent`children
      modifies set e | e in parent.children && orderOperator.Some? :: e`order
      ensures r.Failure? <==> PassError(old(actualElements), data).Some?
      ensures r.Failure? ==> r.error == PassError(old(actualElements), data).value
      ensures Valid() && Diagnostics(log)
      ensures r.Failure? ==> log == [] && children == old(children) && actualElements == old(actualElements)
                             && parent.children == old(parent.children)
      ensures forall e | e in parent.children :: e in old(parent.children) || fresh(e)
      ensures policy.Append? ==> actualElements == old(actualElements)
      ensures policy.Append? && r.Success? ==> DomainDataOf(children) == DomainDataOf(old(children)) + data
      ensures policy.Sync? && Equivalence(policy.comparisonOperator) && old(Synced()) ==>
                Synced()
                && (r.Success? ==> AllMatched(DomainDataOf(children), data, policy.comparisonOperator)
                                   && AllMatched(data, DomainDataOf(children), policy.comparisonOperator))
      ensures r.Success? ==> r.value.updated == []
      ensures policy.Append? && r.Success? ==> DomainDataOf(r.value.added) == data && r.value.removed == []
      ensures policy.Sync? && r.Success? ==>
                DomainDataOf(r.value.added) == NewData(DomainDataOf(old(actualElements)), data, policy.comparisonOperator)
                && r.value.removed == DeletedRefs(old(actualElements), data, policy.comparisonOperator)
      ensures policy.Sync? && r.Success? && |r.value.added| == 0 && |r.value.removed| > 0 ==>
                forall e | e in old(parent.children) :: e.order == old(e.order)
    {
      if policy.Append? {
        r, log := AppendPass(parent, data);
      } else {
        r, log := SyncPass(parent, data);
      }
    }

    /** A pass writes only console output: `n` reorders, and one more when `extra`. */
    lemma PassLogDiagnostics(display: string, n: nat, extra: bool)
      ensures Diagnostics(Repeat(ReorderOutput(display), n) + (if extra then ReorderOutput(display) else []))
    {
      RepeatDiagnostics(ReorderOutput(display), n);
    }

    /** `RxStreamAppend.update` as `update` sees it. */
    method AppendPass(parent: Element, data: seq<Data>) returns (r: Result<RenderingUpdate, RenderError>, log: seq<Event>)
      requires Valid()
      modifies this`children, parent`children
      modifies set e | e in parent.children && orderOperator.Some? :: e`order
      ensures r.Failure? <==> FirstRenderError(data).Some?
      ensures r.Failure? ==> r.error == FirstRenderError(data).value
      ensures Valid() && Diagnostics(log)
      ensures r.Failure? ==> log == [] && children == old(children) && parent.children == old(parent.children)
      ensures forall e | e in parent.children :: e in old(parent.children) || fresh(e)
      ensures r.Success? ==> DomainDataOf(children) == DomainDataOf(old(children)) + data
      ensures r.Success? ==> DomainDataOf(r.value.added) == data && r.value.updated == [] && r.value.removed == []
    {
      r, log := AppendUpdate(parent, data);
      if r.Success? {
        RepeatDiagnostics(ReorderOutput(Display(parent)), |data|);
        DomainDataOfAppend(old(children), r.value.added);
        forall e | e in parent.children
          ensures e in old(parent.children) || fresh(e)
        {
          if e !in old(parent.children) {
            var k :| 0 <= k < |r.value.added| && Elements(r.value.added)[k] == e;
          }
        }
      }
    }

    /** `RxStreamSync.update` as `update` sees it. */
    method SyncPass(parent: Element, data: seq<Data>) returns (r: Result<RenderingUpdate, RenderError>, log: seq<Event>)
      requires policy.Sync? && Valid()
      modifies this`children, this`actualElements, parent`children
      modifies set e | e in parent.children && orderOperator.Some? :: e`order
      ensures r.Failure? <==> FirstRenderError(NewData(DomainDataOf(old(actualElements)), data, policy.comparisonOperator)).Some?
      ensures r.Failure? ==> r.error == FirstRenderError(NewData(DomainDataOf(old(actualElements)), data, policy.comparisonOperator)).value
      ensures Valid() && Diagnostics(log)
      ensures r.Failure? ==> log == [] && children == old(children) && actualElements == old(actualElements)
                             && parent.children == old(parent.children)
      ensures forall e | e in parent.children :: e in old(parent.children) || fresh(e)
      ensures Equivalence(policy.comparisonOperator) && old(Synced()) ==>
                Synced()
                && (r.Success? ==> AllMatched(DomainDataOf(children), data, policy.comparisonOperator)
                                   && AllMatched(data, DomainDataOf(children), policy.comparisonOperator))
      ensures r.Success? ==>
                r.value.updated == []
                && DomainDataOf(r.value.added) == NewData(DomainDataOf(old(actualElements)), data, policy.comparisonOperator)
                && r.value.removed == DeletedRefs(old(actualElements), data, policy.comparisonOperator)
      ensures r.Success? && |r.value.added| == 0 && |r.value.removed| > 0 ==>
                forall e | e in old(parent.children) :: e.order == old(e.order)
    {
      r, log := SyncUpdate(parent, data);
      if r.Success? {
        PassLogDiagnostics(Display(parent), |r.value.added|, |r.value.added| == 0 && |r.value.removed| == 0);
        forall e | e in parent.children
          ensures e in old(parent.children) || fresh(e)
        {
          if e !in old(parent.children) {
            var k :| 0 <= k < |r.value.added| && Elements(r.value.added)[k] == e;
          }
        }
        if Equivalence(policy.comparisonOperator) && old(Synced()) {
          SyncPassResult(old(children), r.value.added, data, policy.comparisonOperator);
        }
      }
    }

    /**
     * `subscribe(parent)` with the source delivered synchronously: each
     * emission is one `update` pass, followed by `sideEffects(parent, update)`
     * when that callback is set. A render error ends the subscription: RxJS
     * reports it and no later emission is processed. `passes` counts the
     * passes that completed and `reports` are their reports, in order, so
     * `sideEffects` receives exactly those reports.
     */
    method Subscribe(parent: Element) returns (events: seq<Event>, passes: nat, reports: seq<RenderingUpdate>)
      requires Valid()
      modifies this`children, this`actualElements, parent`children
      modifies set e | e in parent.children && orderOperator.Some? :: e`order
      ensures passes <= |source| && |reports| == passes && Valid()
      ensures forall i | 0 <= i < |events| :: events[i].Reported? <==> passes < |source| && i == |events| - 1
      ensures passes < |source| ==>
                |events| > 0
                && exists k | 0 <= k < |source[passes]| ::
                     RenderedTag(vDomMap(source[passes][k])).Failure?
                     && events[|events| - 1] == Reported(RenderedTag(vDomMap(source[passes][k])).error)
      ensures (forall i, k | 0 <= i < |source| && 0 <= k < |source[i]| :: RenderedTag(vDomMap(source[i][k])).Success?)
              ==> passes == |source|
      ensures policy.Append? ==> forall i | 0 <= i < passes :: FirstRenderError(source[i]).None?
      ensures policy.Append? && passes < |source| ==>
                FirstRenderError(source[passes]).Some? && events[|events| - 1] == Reported(FirstRenderError(source[passes]).value)
      ensures Filter(events, IsUpdate) == if sideEffects then UpdateCalls(parent, reports) else []
      ensures forall i | 0 <= i < passes :: reports[i].updated == []
      ensures policy.Append? ==> forall i | 0 <= i < passes :: DomainDataOf(reports[i].added) == source[i] && reports[i].removed == []
      ensures policy.Append? ==>
                actualElements == old(actualElements)
                && DomainDataOf(children) == DomainDataOf(old(children)) + Concat(source[..passes])
      ensures policy.Sync? && Equivalence(policy.comparisonOperator) && old(Synced()) ==> Synced()
    {
      events, passes, reports := [], 0, [];
      ghost var startData, startActual, synced := DomainDataOf(children), actualElements, Synced();
      assert source[..0] == [];
      while passes < |source|
        invariant passes == |reports| && Valid() && Subscribed(parent, events, reports, startData, startActual, synced)
        invariant forall e | e in parent.children :: e in old(parent.children) || fresh(e)
      {
        ghost var actual := actualElements;
        var more, r := NextPass(parent, events, reports, startData, startActual, synced);
        if r.Failure? {
          StoppedOnError(actual, passes, events, r.error);
          events := events + more;
          return;
        }
        events, reports, passes := events + more, reports + [r.value], passes + 1;
      }
    }

    /**
     * What the first `|reports|` passes of `subscribe(parent)` establish,
     * from a start where `startData` were tracked, `startActual` was the sync
     * list and `synced` said whether it equalled the tracked list.
     */
    ghost predicate Subscribed(parent: Element, events: seq<Event>, reports: seq<RenderingUpdate>,
                               startData: seq<Data>, startActual: seq<Ref>, synced: bool)
      reads this
    {
      PassesEvents(parent, events, reports, sideEffects)
      && PassesReports(reports, source, policy.Append?)
      && (policy.Append? ==> actualElements == startActual && DomainDataOf(children) == startData + Concat(source[..|reports|]))
      && PassesRendered(reports)
      && (policy.Sync? && Equivalence(policy.comparisonOperator) && synced ==> Synced())
    }

    /** For an append list, no emission of the completed passes holds a description that fails to render. */
    ghost predicate PassesRendered(reports: seq<RenderingUpdate>) {
      policy.Append? ==> forall i | 0 <= i < |reports| && i < |source| :: FirstRenderError(source[i]).None?
    }

    /** The events of passes that all completed: no error reported, and one `sideEffects` call per report when it is set. */
    static ghost predicate PassesEvents(parent: Element, events: seq<Event>, reports: seq<RenderingUpdate>, sideEffects: bool)
    {
      (forall i | 0 <= i < |events| :: !events[i].Reported?)
      && Filter(events, IsUpdate) == (if sideEffects then UpdateCalls(parent, reports) else [])
    }

    /** The reports of the first `|reports|` passes over `source`: nothing updated, and for an append list exactly each emission added. */
    static ghost predicate PassesReports(reports: seq<RenderingUpdate>, source: seq<seq<Data>>, append: bool)
    {
      |reports| <= |source|
      && (forall i | 0 <= i < |reports| :: reports[i].updated == [])
      && (append ==> forall i | 0 <= i < |reports| :: DomainDataOf(reports[i].added) == source[i] && reports[i].removed == [])
    }

    /** The next emission of `subscribe(parent)`: a completed pass extends what the earlier ones established. */
    method NextPass(parent: Element, events: seq<Event>, reports: seq<RenderingUpdate>,
                    ghost startData: seq<Data>, ghost startActual: seq<Ref>, ghost synced: bool)
      returns (more: seq<Event>, r: Result<RenderingUpdate, RenderError>)
      requires |reports| < |source| && Valid() && Subscribed(parent, events, reports, startData, startActual, synced)
      modifies this`children, this`actualElements, parent`children
      modifies set e | e in parent.children && orderOperator.Some? :: e`order
      ensures forall e | e in parent.children :: e in old(parent.children) || fresh(e)
      ensures r.Failure? <==> PassError(old(actualElements), source[|reports|]).Some?
      ensures r.Failure? ==>
                r.error == PassError(old(actualElements), source[|reports|]).value
                && more == [Reported(r.error)] && children == old(children) && actualElements == old(actualElements)
      ensures Valid()
      ensures r.Success? ==> Subscribed(parent, events + more, reports + [r.value], startData, startActual, synced)
    {
      ghost var actual := actualElements;
      r, more := Emit(parent, source[|reports|], startData + Concat(source[..|reports|]));
      if r.Success? {
        PassedSnoc(parent, events, more, reports, r.value, actual);
        if policy.Append? {
          AppendedSnoc(DomainDataOf(children), startData, source, |reports|);
        }
      }
    }

    /** What an append list has tracked after one more emission of `source`. */
    static lemma AppendedSnoc(tracked: seq<Data>, startData: seq<Data>, source: seq<seq<Data>>, n: nat)
      requires n < |source| && tracked == startData + Concat(source[..n]) + source[n]
      ensures tracked == startData + Concat(source[..n + 1])
    {
      ConcatPrefix(source, n);
    }

    /** A pass over the next emission that completed extends what the earlier passes established. */
    lemma PassedSnoc(parent: Element, events: seq<Event>, more: seq<Event>, reports: seq<RenderingUpdate>,
                     r: RenderingUpdate, actual: seq<Ref>)
      requires PassesEvents(parent, events, reports, sideEffects) && PassesReports(reports, source, policy.Append?)
      requires PassesRendered(reports)
      requires |reports| < |source| && PassError(actual, source[|reports|]).None?
      requires forall i | 0 <= i < |more| :: !more[i].Reported?
      requires Filter(more, IsUpdate) == (if sideEffects then [Updated(parent, r)] else [])
      requires r.updated == []
      requires policy.Append? ==> DomainDataOf(r.added) == source[|reports|] && r.removed == []
      ensures PassesEvents(parent, events + more, reports + [r], sideEffects)
      ensures PassesReports(reports + [r], source, policy.Append?)
      ensures PassesRendered(reports + [r])
    {
      EventsSnoc(parent, events, more, reports, r, sideEffects);
      ReportsSnoc(reports, r, source, policy.Append?);
    }

    /** The events of one more completed pass join those of the earlier ones. */
    static lemma EventsSnoc(parent: Element, events: seq<Event>, more: seq<Event>, reports: seq<RenderingUpdate>,
                            r: RenderingUpdate, sideEffects: bool)
      requires PassesEvents(parent, events, reports, sideEffects)
      requires forall i | 0 <= i < |more| :: !more[i].Reported?
      requires Filter(more, IsUpdate) == (if sideEffects then [Updated(parent, r)] else [])
      ensures PassesEvents(parent, events + more, reports + [r], sideEffects)
    {
      JoinEvents(events, more);
      UpdateCallsSnoc(parent, reports, r);
    }

    /** The report of one more pass joins the reports of the earlier ones. */
    static lemma ReportsSnoc(reports: seq<RenderingUpdate>, r: RenderingUpdate, source: seq<seq<Data>>, append: bool)
      requires PassesReports(reports, source, append) && |reports| < |source| && r.updated == []
      requires append ==> DomainDataOf(r.added) == source[|reports|] && r.removed == []
      ensures PassesReports(reports + [r], source, append)
    {
    }

    /** The `sideEffects(parent, update)` calls for a sequence of reports. */
    static function UpdateCalls(parent: Element, reports: seq<RenderingUpdate>): (r: seq<Event>)
      ensures |r| == |reports| && forall i | 0 <= i < |reports| :: r[i] == Updated(parent, reports[i])
    {
      seq(|reports|, i requires 0 <= i < |reports| => Updated(parent, reports[i]))
    }

    static lemma UpdateCallsSnoc(parent: Element, reports: seq<RenderingUpdate>, r: RenderingUpdate)
      ensures UpdateCalls(parent, reports + [r]) == UpdateCalls(parent, reports) + [Updated(parent, r)]
    {
      assert forall i | 0 <= i < |reports| + 1 ::
        UpdateCalls(parent, reports + [r])[i] == (UpdateCalls(parent, reports) + [Updated(parent, r)])[i];
    }

    /**
     * One emission of `subscribe(parent)`: the `update` pass, whose console
     * output comes first, then `sideEffects(parent, r)` with its report `r`;
     * the error of a failed pass is reported instead, and that pass changes
     * nothing. `appended` is what an append pass has tracked so far.
     */
    method Emit(parent: Element, data: seq<Data>, ghost appended: seq<Data>) returns (r: Result<RenderingUpdate, RenderError>, events: seq<Event>)
      requires Valid()
      requires policy.Append? ==> DomainDataOf(children) == appended
      modifies this`children, this`actualElements, parent`children
      modifies set e | e in parent.children && orderOperator.Some? :: e`order
      ensures Valid()
      ensures r.Failure? <==> PassError(old(actualElements), data).Some?
      ensures r.Failure? ==>
                r.error == PassError(old(actualElements), data).value
                && events == [Reported(r.error)] && children == old(children)
                && actualElements == old(actualElements) && parent.children == old(parent.children)
      ensures r.Success? ==>
                var n := if sideEffects then 1 else 0;
                |events| >= n && Diagnostics(events[..|events| - n])
                && (sideEffects ==> events[|events| - 1] == Updated(parent, r.value))
                && (forall i | 0 <= i < |events| :: !events[i].Reported?)
                && Filter(events, IsUpdate) == (if sideEffects then [Updated(parent, r.value)] else [])
      ensures r.Success? ==> r.value.updated == []
      ensures policy.Append? && r.Success? ==> DomainDataOf(r.value.added) == data && r.value.removed == []
      ensures policy.Sync? && r.Success? ==>
                DomainDataOf(r.value.added) == NewData(DomainDataOf(old(actualElements)), data, policy.comparisonOperator)
                && r.value.removed == DeletedRefs(old(actualElements), data, policy.comparisonOperator)
      ensures forall e | e in parent.children :: e in old(parent.children) || fresh(e)
      ensures policy.Append? ==> actualElements == old(actualElements)
      ensures policy.Append? && r.Success? ==> DomainDataOf(children) == appended + data
      ensures policy.Sync? && Equivalence(policy.comparisonOperator) && old(Synced()) ==>
                Synced()
                && (r.Success? ==>
                      AllMatched(DomainDataOf(children), data, policy.comparisonOperator)
                      && AllMatched(data, DomainDataOf(children), policy.comparisonOperator))
    {
      var log;
      r, log := Update(parent, data);
      if r.Failure? {
        return r, [Reported(r.error)];
      }
      var call := if sideEffects then [Updated(parent, r.value)] else [];
      events := log + call;
      EmittedEvents(log, call);
    }

    /** The events of a pass that succeeded: its console output, then its side-effect call if any. */
    static lemma EmittedEvents(log: seq<Event>, call: seq<Event>)
      requires Diagnostics(log) && (call == [] || (|call| == 1 && call[0].Updated?))
      ensures (log + call)[..|log + call| - |call|] == log
      ensures |call| == 1 ==> (log + call)[|log + call| - 1] == call[0]
      ensures forall i | 0 <= i < |log + call| :: !(log + call)[i].Reported?
      ensures Filter(log + call, IsUpdate) == call
    {
      PassEvents([], log, call);
      assert [] + log + call == log + call;
      assert (log + call)[..|log + call| - |call|] == log;
    }

    /** The events of a completed pass after those before it. */
    static lemma JoinEvents(events: seq<Event>, more: seq<Event>)
      requires forall i | 0 <= i < |events| :: !events[i].Reported?
      requires forall i | 0 <= i < |more| :: !more[i].Reported?
      ensures forall i | 0 <= i < |events + more| :: !(events + more)[i].Reported?
      ensures Filter(events + more, IsUpdate) == Filter(events, IsUpdate) + Filter(more, IsUpdate)
    {
      FilterAppend(events, more, IsUpdate);
    }

    /**
     * The events of a subscription whose pass `passes` threw `error`: the
     * report of an error of a description of that emission, last.
     */
    lemma StoppedOnError(actual: seq<Ref>, passes: nat, events: seq<Event>, error: RenderError)
      requires passes < |source| && PassError(actual, source[passes]) == Some(error)
      requires forall i | 0 <= i < |events| :: !events[i].Reported?
      ensures var all := events + [Reported(error)];
              (forall i | 0 <= i < |all| :: all[i].Reported? <==> i == |all| - 1)
              && Filter(all, IsUpdate) == Filter(events, IsUpdate)
              && (exists k | 0 <= k < |source[passes]| ::
                    RenderedTag(vDomMap(source[passes][k])).Failure?
                    && all[|all| - 1] == Reported(RenderedTag(vDomMap(source[passes][k])).error))
              && (policy.Append? ==> FirstRenderError(source[passes]).Some? && all[|all| - 1] == Reported(FirstRenderError(source[passes]).value))
    ensures !forall i, k | 0 <= i < |source| && 0 <= k < |source[i]| :: RenderedTag(vDomMap(source[i][k])).Success?
    {
      FailedPassEvents(events, error);
      PassErrorFromEmission(actual, source[passes]);
    }

    /** The events of a failed pass: the report of its error, last. */
    static lemma FailedPassEvents(events: seq<Event>, error: RenderError)
      requires forall i | 0 <= i < |events| :: !events[i].Reported?
      ensures var all := events + [Reported(error)];
              forall i | 0 <= i < |all| :: all[i].Reported? <==> i == |all| - 1
      ensures Filter(events + [Reported(error)], IsUpdate) == Filter(events, IsUpdate)
    {
      FilterAppend(events, [Reported(error)], IsUpdate);
      assert Filter([Reported(error)], IsUpdate) == Filter([], IsUpdate);
    }

    /** The events of one more pass: its console output, then at most one side-effect call. */
    static lemma PassEvents(events: seq<Event>, log: seq<Event>, call: seq<Event>)
      requires Diagnostics(log) && (call == [] || (|call| == 1 && call[0].Updated?))
      ensures Filter(events + log + call, IsUpdate) == Filter(events, IsUpdate) + call
      ensures forall i | |events| <= i < |events + log + call| :: !(events + log + call)[i].Reported?
    {
      FilterAppend(events + log, call, IsUpdate);
      FilterAppend(events, log, IsUpdate);
      FilterNone(log, IsUpdate);
      assert Filter(events, IsUpdate) + [] == Filter(events, IsUpdate);
      if |call| == 1 {
        assert call == [call[0]];
        assert Filter(call, IsUpdate) == [call[0]] + Filter([], IsUpdate);
      }
    }
  }
}
