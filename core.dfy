/**
 * The reactive lifecycle of a rendered element.
 *
 * `extractRxStreams` sorts a description's properties into attributes
 * (static values or bindings) and one kind of children (a list, a
 * replace-policy binding, or a list reconciler). `applyAttribute` writes
 * one attribute through the three special bindings or as a plain property.
 * On connection an element applies its static attributes, subscribes its
 * attribute bindings, renders or subscribes its children and calls the
 * description's `connectedCallback`; on disconnection it tears its
 * subscriptions and hooks down, last in first out. A placeholder holds the
 * place of one reactive child.
 */
module Core {
  import opened Wrappers
  import opened Lists
  import opened Dom
  import opened ElementFactory
  import opened VirtualDom
  import opened RxStreams

  // ---------------------------------------------------------------------
  // extractRxStreams
  // ---------------------------------------------------------------------

  /** The keys of a description that are never attributes. */
  const ReservedKeys: set<string> := {"tag", "children", "connectedCallback", "disconnectedCallback"}

  /** An entry of a description that names an attribute. */
  predicate IsAttributeEntry(entry: (string, Prop)) {
    entry.0 !in ReservedKeys
  }

  /** The identity mapping given to a plain observable. */
  function Identity(d: Data): Data {
    d
  }

  /**
   * One attribute, classified in the order the source checks: an `RxStream`
   * is kept, a plain observable becomes a binding with the identity mapping
   * and no options, an `RxAttribute` becomes a binding carrying its own
   * mapping and options; anything else is a static value.
   */
  function ConvertAttribute(p: Prop): Prop {
    match p
    case Observable(emissions) => AttrStream(RxStream(emissions, Identity, None, None, false))
    case RxAttribute(attribute) => AttrStream(attribute)
    case _ => p
  }

  /**
   * The attributes of a description: its entries without the four reserved
   * keys, in `Object.entries` order, each value converted.
   */
  function ExtractAttributes(entries: seq<(string, Prop)>): (r: seq<(string, Prop)>)
    ensures |r| == |Filter(entries, IsAttributeEntry)| <= |entries|
    ensures forall i | 0 <= i < |r| :: r[i].0 !in ReservedKeys
    ensures forall i | 0 <= i < |entries| && entries[i].0 !in ReservedKeys ::
              (entries[i].0, ConvertAttribute(entries[i].1)) in r
    ensures forall i | 0 <= i < |r| :: exists j | 0 <= j < |entries| ::
              r[i] == (entries[j].0, ConvertAttribute(entries[j].1))
  {
    var kept := Filter(entries, IsAttributeEntry);
    var r := seq(|kept|, i requires 0 <= i < |kept| => (kept[i].0, ConvertAttribute(kept[i].1)));
    forall i | 0 <= i < |entries| && entries[i].0 !in ReservedKeys
      ensures (entries[i].0, ConvertAttribute(entries[i].1)) in r
    {
      assert entries[i] in kept;
      var j :| 0 <= j < |kept| && kept[j] == entries[i];
      assert r[j] == (entries[i].0, ConvertAttribute(entries[i].1));
    }
    forall i | 0 <= i < |r|
      ensures exists j | 0 <= j < |entries| :: r[i] == (entries[j].0, ConvertAttribute(entries[j].1))
    {
      assert kept[i] in entries;
    }
    r
  }

  /** A bound attribute whose source is a plain observable applies each emission as it is, in order. */
  lemma ObservableAttributeAppliesEmissions(emissions: seq<Data>)
    ensures var s := ConvertAttribute(Observable(emissions)).stream;
            Finalizations(s, Truthy) == seq(|emissions|, i requires 0 <= i < |emissions| => Finalization(emissions[i], emissions[i]))
  {
    var s := ConvertAttribute(Observable(emissions)).stream;
    assert !InitialApplies(s, Truthy);
    assert InitialFinalizations(s, Truthy) == [];
    forall i | 0 <= i < |emissions|
      ensures EmissionFinalization(s, emissions[i]) == Finalization(emissions[i], emissions[i])
    {
    }
  }

  /** An `RxAttribute` literal keeps its source, mapping and options when it becomes a binding. */
  lemma RxAttributeKeepsItsOptions(attribute: RxStream<Data>)
    ensures InstanceOfStream(ConvertAttribute(RxAttribute(attribute)))
    ensures Finalizations(ConvertAttribute(RxAttribute(attribute)).stream, Truthy) == Finalizations(attribute, Truthy)
  {
  }

  /** The children of a description after classification. */
  datatype ConvertedChildren =
    | ChildList(items: seq<RenderableChild>)                   // rendered once by `renderChildren`
    | ReplaceStream(stream: RxStream<seq<RenderableChild>>)    // each value replaces every child
    | ListStream(options: ListOptions)                         // an append or sync reconciler

  /** `children.map(...)`: an `RxChild` literal becomes a binding; every other item is kept. */
  function ConvertChildren(items: seq<ChildLike>): (r: seq<RenderableChild>)
    ensures |r| == |items|
    ensures forall i | 0 <= i < |items| ::
              r[i] == if items[i].RxChild? then StreamChild(items[i].binding) else items[i].child
  {
    seq(|items|, i requires 0 <= i < |items| =>
      if items[i].RxChild? then StreamChild(items[i].binding) else items[i].child)
  }

  /** `isInstanceOfRxChildren`: the value has a `source$` (an `RxChildren` or `RxAttribute` literal). */
  predicate HasSource(p: Prop) {
    p.RxChildren? || p.RxAttribute?
  }

  /**
   * The reconciler a `policy` builds: a replace binding, an append
   * reconciler, or a sync reconciler whose comparison defaults to `===`;
   * an unknown policy is logged and gives no children.
   */
  function PolicyChildren(policy: ChildrenPolicy): (r: (ConvertedChildren, seq<Event>))
    ensures r.1 != [] <==> policy.UnknownPolicy?
    ensures r.1 != [] ==> r == (ChildList([]), [Logged(UnknownChildrenPolicy)])
    ensures policy.SyncPolicy? && policy.comparisonOperator.None? ==>
              r.0.ListStream? && r.0.options.policy == Sync(StrictEquals)
    ensures policy.SyncPolicy? && policy.comparisonOperator.Some? ==>
              r.0.ListStream? && r.0.options.policy == Sync(policy.comparisonOperator.value)
    ensures policy.AppendPolicy? ==> r.0.ListStream? && r.0.options.policy == Append
    ensures (policy.AppendPolicy? || policy.SyncPolicy?) ==>
              r.0.options.source == policy.source && r.0.options.vDomMap == policy.vdomMap
              && r.0.options.sideEffects == policy.sideEffects && r.0.options.orderOperator == policy.orderOperator
    ensures policy.ReplacePolicy? ==> r.0 == ReplaceStream(policy.replace)
  {
    match policy
    case ReplacePolicy(replace) => (ReplaceStream(replace), [])
    case AppendPolicy(source, vdomMap, sideEffects, orderOperator) =>
      (ListStream(ListOptions(Append, source, vdomMap, sideEffects, orderOperator)), [])
    case SyncPolicy(source, vdomMap, sideEffects, orderOperator, comparisonOperator) =>
      var same := if comparisonOperator.Some? then comparisonOperator.value else StrictEquals;
      (ListStream(ListOptions(Sync(same), source, vdomMap, sideEffects, orderOperator)), [])
    case UnknownPolicy(_) => (ChildList([]), [Logged(UnknownChildrenPolicy)])
  }

  /**
   * The children of a description, classified in the order the source
   * checks, with the console error logged when they are of no known kind.
   */
  function ExtractChildren(children: Option<Prop>): (r: (ConvertedChildren, seq<Event>))
    ensures |r.1| <= 1 && (r.1 != [] ==> r.0 == ChildList([]) && r.1[0].Logged?)
    ensures children.None? || !PropTruthy(children.value) ==> r == (ChildList([]), [])
    ensures children.Some? && children.value.ChildArray? ==>
              r == (ChildList(ConvertChildren(children.value.items)), [])
    ensures r.0.ReplaceStream? <==>
              children.Some? && (children.value.ChildrenRxStream?
                                 || (children.value.RxChildren? && children.value.policy.ReplacePolicy?))
    ensures r.0.ListStream? <==>
              children.Some? && (children.value.ChildrenStreamInstance?
                                 || (children.value.RxChildren? && !children.value.policy.ReplacePolicy?
                                     && !children.value.policy.UnknownPolicy?))
    ensures r.1 == [Logged(UnknownChildrenType)] <==>
              children.Some? && PropTruthy(children.value)
              && (children.value.Static? || children.value.Observable? || children.value.AttrStream?
                  || children.value.Function?)
    ensures r.1 == [Logged(UnknownChildrenPolicy)] <==>
              children.Some? && (children.value.RxAttribute?
                                 || (children.value.RxChildren? && children.value.policy.UnknownPolicy?))
  {
    if children.None? || !PropTruthy(children.value) then (ChildList([]), [])
    else
      var p := children.value;
      if p.ChildArray? then (ChildList(ConvertChildren(p.items)), [])
      else if InstanceOfStream(p) then
        if p.ChildrenRxStream? then (ReplaceStream(p.children), [])
        else (ChildList([]), [Logged(UnknownChildrenType)])
      else if InstanceOfChildrenStream(p) then (ListStream(p.options), [])
      else if !HasSource(p) then (ChildList([]), [Logged(UnknownChildrenType)])
      else if p.RxChildren? then PolicyChildren(p.policy)
      else (ChildList([]), [Logged(UnknownChildrenPolicy)])
  }

  /** What `extractRxStreams` returns, with the console output it writes. */
  datatype Extracted = Extracted(attributes: seq<(string, Prop)>, children: ConvertedChildren, log: seq<Event>)

  /** `extractRxStreams(vDom)` for a description with these entries. */
  function ExtractRxStreams(entries: seq<(string, Prop)>): Extracted {
    var c := ExtractChildren(Get(entries, "children"));
    Extracted(ExtractAttributes(entries), c.0, c.1)
  }

  // ---------------------------------------------------------------------
  // Custom attribute names
  // ---------------------------------------------------------------------

  predicate IsUpper(c: char) {
    'A' <= c <= 'Z'
  }

  predicate IsLower(c: char) {
    'a' <= c <= 'z'
  }

  function ToLower(c: char): (r: char)
    requires IsUpper(c)
    ensures IsLower(r)
  {
    (c as int + 32) as char
  }

  function ToUpper(c: char): (r: char)
    requires IsLower(c)
    ensures IsUpper(r)
  {
    (c as int - 32) as char
  }

  /** The number of upper-case letters in `k`. */
  function CountUpper(k: string): nat {
    if |k| == 0 then 0 else (if IsUpper(k[0]) then 1 else 0) + CountUpper(k[1..])
  }

  /** The kebab form of one character: an upper-case letter becomes '-' and that letter lowered. */
  function KebabChar(c: char): (r: string)
    ensures |r| == if IsUpper(c) then 2 else 1
    ensures forall i | 0 <= i < |r| :: !IsUpper(r[i])
  {
    if IsUpper(c) then ['-', ToLower(c)] else [c]
  }

  /**
   * `k.replace(/[A-Z]/g, '-$&').toLowerCase()`: a '-' before each
   * upper-case letter, which is then lowered.
   */
  function Kebab(k: string): (r: string)
    ensures |r| == |k| + CountUpper(k)
    ensures forall i | 0 <= i < |r| :: !IsUpper(r[i])
  {
    if |k| == 0 then "" else KebabChar(k[0]) + Kebab(k[1..])
  }

  /** The inverse reading of a kebab name: a '-' followed by a lower-case letter becomes that letter upper-cased. */
  function CamelCase(s: string): string {
    if |s| == 0 then ""
    else if |s| >= 2 && s[0] == '-' && IsLower(s[1]) then [ToUpper(s[1])] + CamelCase(s[2..])
    else [s[0]] + CamelCase(s[1..])
  }

  /** Reading back one kebab character gives the character, whatever follows. */
  lemma CamelCaseKebabChar(c: char, rest: string)
    requires c != '-'
    ensures CamelCase(KebabChar(c) + rest) == [c] + CamelCase(rest)
  {
    var s := KebabChar(c) + rest;
    if IsUpper(c) {
      assert s[2..] == rest;
    } else {
      assert s[1..] == rest;
    }
  }

  /** A key without '-' is recovered from its kebab name. */
  lemma {:induction false} KebabRoundTrip(k: string)
    requires forall i | 0 <= i < |k| :: k[i] != '-'
    ensures CamelCase(Kebab(k)) == k
  {
    if |k| > 0 {
      KebabRoundTrip(k[1..]);
      CamelCaseKebabChar(k[0], Kebab(k[1..]));
      assert k == [k[0]] + k[1..];
    }
  }

  /** Two keys without '-' never share an attribute name. */
  lemma KebabInjective(a: string, b: string)
    requires forall i | 0 <= i < |a| :: a[i] != '-'
    requires forall i | 0 <= i < |b| :: b[i] != '-'
    requires Kebab(a) == Kebab(b)
    ensures a == b
  {
    KebabRoundTrip(a);
    KebabRoundTrip(b);
  }

  // ---------------------------------------------------------------------
  // applyAttribute
  // ---------------------------------------------------------------------

  /** What `applyAttribute(name, value)` does with a name. */
  datatype Binding =
    | ClassName          // `className = value`
    | InlineStyle        // `style[k] = v` for each entry
    | CustomAttributes   // `setAttribute(kebab(k), v)` for each entry
    | Property           // `this[name] = value`
    | Inherited          // calls a method every object inherits; nothing is assigned

  /** The names `specialBindings` defines. */
  const SpecialNames: set<string> := {"class", "style", "customAttributes"}

  /** The binding for `name`, reading only the own keys of `specialBindings`. */
  function BindingFor(name: string): (r: Binding)
    ensures r != Inherited
    ensures r == Property <==> name !in SpecialNames
    ensures r == ClassName <==> name == "class"
    ensures r == InlineStyle <==> name == "style"
  {
    if name == "class" then ClassName
    else if name == "style" then InlineStyle
    else if name == "customAttributes" then CustomAttributes
    else Property
  }

  /**
   * The binding as written: `specialBindings[name]` also reads the keys
   * inherited from `Object.prototype`, which are truthy, so for those
   * names an inherited method is called and the attribute is never set.
   */
  function BindingForAsWritten(name: string): (r: Binding)
    ensures r == Inherited <==> name in ObjectPrototypeKeys
    ensures name !in ObjectPrototypeKeys ==> r == BindingFor(name)
  {
    if name in ObjectPrototypeKeys then Inherited else BindingFor(name)
  }

  /** An attribute named "toString" is assigned by the corrected dispatch, but not as written. */
  lemma InheritedNameIsNeverAssigned()
    ensures BindingForAsWritten("toString") == Inherited
    ensures BindingFor("toString") == Property
  {
  }

  /** The entries `Object.entries(value)` gives for a `style` or `customAttributes` value. */
  function EntriesOf(value: Prop): seq<(string, Data)> {
    if value.Static? && value.value.Dict? then value.value.entries else []
  }

  function SameKey(k: string): string {
    k
  }

  predicate NotOrderKey(k: string) {
    k != "order"
  }

  predicate AnyKey(k: string) {
    true
  }

  /**
   * `m` after `m[rename(k)] = v` for each entry, in order, skipping the
   * keys `kept` rejects.
   */
  function Assign(m: map<string, Data>, entries: seq<(string, Data)>, rename: string -> string, kept: string -> bool)
    : map<string, Data>
  {
    if |entries| == 0 then m
    else
      var last := entries[|entries| - 1];
      var before := Assign(m, entries[..|entries| - 1], rename, kept);
      if kept(last.0) then before[rename(last.0) := last.1] else before
  }

  /** The value of the last entry, among those `kept` accepts, whose renamed key is `key`. */
  function LastFor(entries: seq<(string, Data)>, key: string, rename: string -> string, kept: string -> bool)
    : Option<Data>
  {
    if |entries| == 0 then None
    else
      var last := entries[|entries| - 1];
      if kept(last.0) && rename(last.0) == key then Some(last.1)
      else LastFor(entries[..|entries| - 1], key, rename, kept)
  }

  /** `m[key]` as an option. */
  function MapGet(m: map<string, Data>, key: string): Option<Data> {
    if key in m then Some(m[key]) else None
  }

  /** After the assignments, each key holds the value of the last entry written to it, or its earlier value. */
  lemma {:induction false} AssignLastWins(m: map<string, Data>, entries: seq<(string, Data)>,
                                          rename: string -> string, kept: string -> bool, key: string)
    ensures MapGet(Assign(m, entries, rename, kept), key)
            == if LastFor(entries, key, rename, kept).Some? then LastFor(entries, key, rename, kept) else MapGet(m, key)
  {
    if |entries| > 0 {
      AssignLastWins(m, entries[..|entries| - 1], rename, kept, key);
    }
  }

  /** `style.order` after the style entries: the last "order" entry, or its earlier value. */
  function OrderAfter(order: Data, entries: seq<(string, Data)>): Data {
    var last := LastFor(entries, "order", SameKey, AnyKey);
    if last.Some? then last.value else order
  }

  /** The state `applyAttribute` writes. */
  datatype Bound = Bound(
    className: Prop,
    style: map<string, Data>,
    order: Data,
    attributes: map<string, Data>,
    props: map<string, Prop>)

  function BoundOf(e: Element): Bound
    reads e`className, e`style, e`order, e`attributes, e`props
  {
    Bound(e.className, e.style, e.order, e.attributes, e.props)
  }

  /** The effect of `applyAttribute(name, value)`. */
  function Bind(b: Bound, name: string, value: Prop): Bound {
    match BindingFor(name)
    case ClassName => b.(className := value)
    case InlineStyle =>
      b.(style := Assign(b.style, EntriesOf(value), SameKey, NotOrderKey),
         order := OrderAfter(b.order, EntriesOf(value)))
    case CustomAttributes => b.(attributes := Assign(b.attributes, EntriesOf(value), Kebab, AnyKey))
    case Property => b.(props := b.props[name := value])
    case Inherited => b
  }

  /** The effect of a sequence of `applyAttribute` calls, in order. */
  function BindAll(b: Bound, calls: seq<(string, Prop)>): Bound {
    if |calls| == 0 then b
    else
      var last := calls[|calls| - 1];
      Bind(BindAll(b, calls[..|calls| - 1]), last.0, last.1)
  }

  lemma {:induction false} BindAllAppend(b: Bound, first: seq<(string, Prop)>, second: seq<(string, Prop)>)
    ensures BindAll(b, first + second) == BindAll(BindAll(b, first), second)
  {
    if |second| == 0 {
      assert first + second == first;
    } else {
      assert (first + second)[..|first + second| - 1] == first + second[..|second| - 1];
      BindAllAppend(b, first, second[..|second| - 1]);
    }
  }

  /**
   * A `style` value copies each entry into the inline style, the last entry
   * for a key winning; its "order" entry goes to `style.order`. Nothing
   * else changes.
   */
  lemma StyleCopiesEntries(b: Bound, value: Prop, key: string)
    ensures var r := Bind(b, "style", value);
            var last := LastFor(EntriesOf(value), key, SameKey, AnyKey);
            && r.className == b.className && r.attributes == b.attributes && r.props == b.props
            && MapGet(r.style, key) == (if key != "order" && last.Some? then last else MapGet(b.style, key))
            && r.order == (if LastFor(EntriesOf(value), "order", SameKey, AnyKey).Some?
                           then LastFor(EntriesOf(value), "order", SameKey, AnyKey).value else b.order)
  {
    var es := EntriesOf(value);
    AssignLastWins(b.style, es, SameKey, NotOrderKey, key);
    if key == "order" {
      LastForNeverOrder(es);
    } else {
      LastForKept(es, key);
    }
  }

  /** No entry written to the inline style map is named "order". */
  lemma {:induction false} LastForNeverOrder(entries: seq<(string, Data)>)
    ensures LastFor(entries, "order", SameKey, NotOrderKey) == None
  {
    if |entries| > 0 {
      LastForNeverOrder(entries[..|entries| - 1]);
    }
  }

  /** For a key other than "order", skipping "order" entries does not change which entry is last. */
  lemma {:induction false} LastForKept(entries: seq<(string, Data)>, key: string)
    requires key != "order"
    ensures LastFor(entries, key, SameKey, NotOrderKey) == LastFor(entries, key, SameKey, AnyKey)
  {
    if |entries| > 0 {
      LastForKept(entries[..|entries| - 1], key);
    }
  }

  /**
   * A `customAttributes` value sets, for each entry, the attribute named by
   * its kebab key; the last entry for a name wins. Nothing else changes.
   */
  lemma CustomAttributesUseKebabNames(b: Bound, value: Prop, name: string)
    ensures var r := Bind(b, "customAttributes", value);
            var last := LastFor(EntriesOf(value), name, Kebab, AnyKey);
            && r.className == b.className && r.style == b.style && r.order == b.order && r.props == b.props
            && MapGet(r.attributes, name) == (if last.Some? then last else MapGet(b.attributes, name))
  {
    AssignLastWins(b.attributes, EntriesOf(value), Kebab, AnyKey, name);
  }

  /** Any other name is assigned as a property, and only that property changes. */
  lemma OtherNamesAreProperties(b: Bound, name: string, value: Prop)
    requires name !in SpecialNames
    ensures var r := Bind(b, name, value);
            r.props == b.props[name := value]
            && r.className == b.className && r.style == b.style && r.order == b.order && r.attributes == b.attributes
  {
  }

  /** `applyAttribute(name, value)` on `e`. */
  method ApplyAttribute(e: Element, name: string, value: Prop)
    modifies e`className, e`style, e`order, e`attributes, e`props
    ensures BoundOf(e) == Bind(old(BoundOf(e)), name, value)
  {
    if name == "class" {
      e.className := value;
    } else if name == "style" {
      CopyStyle(e, EntriesOf(value));
    } else if name == "customAttributes" {
      SetCustomAttributes(e, EntriesOf(value));
    } else {
      e.props := e.props[name := value];
    }
  }

  /** The `style` binding: `style[k] = v` for each entry, in order. */
  method CopyStyle(e: Element, entries: seq<(string, Data)>)
    modifies e`style, e`order
    ensures e.style == Assign(old(e.style), entries, SameKey, NotOrderKey)
    ensures e.order == OrderAfter(old(e.order), entries)
  {
    var i := 0;
    while i < |entries|
      invariant 0 <= i <= |entries|
      invariant e.style == Assign(old(e.style), entries[..i], SameKey, NotOrderKey)
      invariant e.order == OrderAfter(old(e.order), entries[..i])
    {
      assert entries[..i + 1][..i] == entries[..i];
      var (k, v) := entries[i];
      if k == "order" {
        e.order := v;
      } else {
        e.style := e.style[k := v];
      }
      i := i + 1;
    }
    assert entries[..i] == entries;
  }

  /** The `customAttributes` binding: `setAttribute(kebab(k), v)` for each entry, in order. */
  method SetCustomAttributes(e: Element, entries: seq<(string, Data)>)
    modifies e`attributes
    ensures e.attributes == Assign(old(e.attributes), entries, Kebab, AnyKey)
  {
    var i := 0;
    while i < |entries|
      invariant 0 <= i <= |entries|
      invariant e.attributes == Assign(old(e.attributes), entries[..i], Kebab, AnyKey)
    {
      assert entries[..i + 1][..i] == entries[..i];
      var (k, v) := entries[i];
      e.attributes := e.attributes[Kebab(k) := v];
      i := i + 1;
    }
    assert entries[..i] == entries;
  }

  // ---------------------------------------------------------------------
  // The reactive trait: connection
  // ---------------------------------------------------------------------

  /** An attribute `connectedCallback` applies as it is: anything that is not an `RxStream`. */
  predicate IsStaticAttribute(attribute: (string, Prop)) {
    !InstanceOfStream(attribute.1)
  }

  /** An attribute binding `connectedCallback` subscribes. */
  predicate IsBoundAttribute(attribute: (string, Prop)) {
    attribute.1.AttrStream?
  }

  /** The `applyAttribute` calls one attribute binding makes: one per `finalize` call, in order. */
  function BindingCalls(name: string, s: RxStream<Data>): (r: seq<(string, Prop)>)
    ensures |r| == |Finalizations(s, Truthy)|
    ensures forall i | 0 <= i < |r| :: r[i] == (name, Static(Finalizations(s, Truthy)[i].value))
  {
    var f := Finalizations(s, Truthy);
    seq(|f|, i requires 0 <= i < |f| => (name, Static(f[i].value)))
  }

  /** The `sideEffects` calls one attribute binding of `e` makes. */
  function BindingEffects(e: Element, s: RxStream<Data>): (r: seq<Event>)
    ensures |r| == if s.sideEffects then |Finalizations(s, Truthy)| else 0
    ensures forall i | 0 <= i < |r| :: r[i] == Resolved(e, Finalizations(s, Truthy)[i].domainData)
  {
    var f := Finalizations(s, Truthy);
    if s.sideEffects then seq(|f|, i requires 0 <= i < |f| => Resolved(e, f[i].domainData)) else []
  }

  /** The `applyAttribute` calls of all attribute bindings, one binding after the other. */
  function BoundCalls(attributes: seq<(string, Prop)>): seq<(string, Prop)> {
    if |attributes| == 0 then []
    else
      var last := attributes[|attributes| - 1];
      BoundCalls(attributes[..|attributes| - 1])
        + (if IsBoundAttribute(last) then BindingCalls(last.0, last.1.stream) else [])
  }

  /** The `sideEffects` calls of all attribute bindings of `e`, one binding after the other. */
  function BoundEffects(e: Element, attributes: seq<(string, Prop)>): seq<Event> {
    if |attributes| == 0 then []
    else
      var last := attributes[|attributes| - 1];
      BoundEffects(e, attributes[..|attributes| - 1])
        + (if IsBoundAttribute(last) then BindingEffects(e, last.1.stream) else [])
  }

  lemma BoundSnoc(e: Element, attributes: seq<(string, Prop)>, i: nat)
    requires i < |attributes|
    ensures var extra := if IsBoundAttribute(attributes[i]) then BindingCalls(attributes[i].0, attributes[i].1.stream) else [];
            BoundCalls(attributes[..i + 1]) == BoundCalls(attributes[..i]) + extra
    ensures var extra := if IsBoundAttribute(attributes[i]) then BindingEffects(e, attributes[i].1.stream) else [];
            BoundEffects(e, attributes[..i + 1]) == BoundEffects(e, attributes[..i]) + extra
  {
    assert attributes[..i + 1][..i] == attributes[..i];
  }

  /** The static attributes, applied in order. */
  method ApplyStaticAttributes(e: Element, attributes: seq<(string, Prop)>) returns (calls: seq<(string, Prop)>)
    modifies e`className, e`style, e`order, e`attributes, e`props
    ensures calls == Filter(attributes, IsStaticAttribute)
    ensures BoundOf(e) == BindAll(old(BoundOf(e)), calls)
  {
    calls := [];
    var i := 0;
    while i < |attributes|
      invariant 0 <= i <= |attributes|
      invariant calls == Filter(attributes[..i], IsStaticAttribute)
      invariant BoundOf(e) == BindAll(old(BoundOf(e)), calls)
    {
      FilterSnoc(attributes, i, IsStaticAttribute);
      if IsStaticAttribute(attributes[i]) {
        ApplyAttribute(e, attributes[i].0, attributes[i].1);
        assert (calls + [attributes[i]])[..|calls|] == calls;
        calls := calls + [attributes[i]];
      }
      i := i + 1;
    }
    assert attributes[..i] == attributes;
  }

  /** The binding's finalisation `i` applied after the first `i`. */
  method ApplyNext(e: Element, name: string, s: RxStream<Data>, i: nat, calls: seq<(string, Prop)>, events: seq<Event>, ghost b0: Bound)
    returns (calls': seq<(string, Prop)>, events': seq<Event>)
    requires i < |Finalizations(s, Truthy)|
    requires calls == BindingCalls(name, s)[..i]
    requires events == BindingEffects(e, s)[..if s.sideEffects then i else 0]
    requires BoundOf(e) == BindAll(b0, calls)
    modifies e`className, e`style, e`order, e`attributes, e`props
    ensures calls' == BindingCalls(name, s)[..i + 1]
    ensures events' == BindingEffects(e, s)[..if s.sideEffects then i + 1 else 0]
    ensures BoundOf(e) == BindAll(b0, calls')
  {
    var f := Finalizations(s, Truthy)[i];
    ApplyAttribute(e, name, Static(f.value));
    calls' := calls + [(name, Static(f.value))];
    assert BoundOf(e) == BindAll(b0, calls') by {
      assert calls'[..|calls|] == calls;
    }
    assert calls' == BindingCalls(name, s)[..i + 1] by {
      assert BindingCalls(name, s)[..i + 1] == BindingCalls(name, s)[..i] + [BindingCalls(name, s)[i]];
    }
    events' := events;
    if s.sideEffects {
      events' := events + [Resolved(e, f.domainData)];
      assert events' == BindingEffects(e, s)[..i + 1] by {
        assert BindingEffects(e, s)[..i + 1] == BindingEffects(e, s)[..i] + [BindingEffects(e, s)[i]];
      }
    }
  }

  /** `attr$.subscribe(v => applyAttribute(name, v))` with the source delivered synchronously. */
  method RunBinding(e: Element, name: string, s: RxStream<Data>) returns (calls: seq<(string, Prop)>, events: seq<Event>)
    modifies e`className, e`style, e`order, e`attributes, e`props
    ensures calls == BindingCalls(name, s) && events == BindingEffects(e, s)
    ensures BoundOf(e) == BindAll(old(BoundOf(e)), calls)
  {
    var finalized := Subscribe(s, Truthy);
    calls := [];
    events := [];
    var i := 0;
    while i < |finalized|
      invariant 0 <= i <= |finalized|
      invariant calls == BindingCalls(name, s)[..i]
      invariant events == BindingEffects(e, s)[..if s.sideEffects then i else 0]
      invariant BoundOf(e) == BindAll(old(BoundOf(e)), calls)
    {
      calls, events := ApplyNext(e, name, s, i, calls, events, old(BoundOf(e)));
      i := i + 1;
    }
    assert BindingCalls(name, s)[..i] == BindingCalls(name, s);
  }

  /** One attribute binding subscribed, its subscription owned by `e`. */
  method SubscribeBinding(e: Element, name: string, s: RxStream<Data>)
    returns (calls: seq<(string, Prop)>, events: seq<Event>, sub: Subscription)
    modifies e`className, e`style, e`order, e`attributes, e`props, e`subscriptions
    ensures calls == BindingCalls(name, s) && events == BindingEffects(e, s)
    ensures BoundOf(e) == BindAll(old(BoundOf(e)), calls)
    ensures e.subscriptions == old(e.subscriptions) + [sub] && fresh(sub) && !sub.closed
  {
    calls, events := RunBinding(e, name, s);
    sub := new Subscription();
    e.subscriptions := e.subscriptions + [sub];
  }

  /** Attribute `i` handled after those before it: subscribed when it is a binding, skipped otherwise. */
  method SubscribeNext(e: Element, attributes: seq<(string, Prop)>, i: nat,
                       calls: seq<(string, Prop)>, events: seq<Event>, ghost b0: Bound,
                       ghost subs0: seq<Subscription>, ghost subs: seq<Subscription>)
    returns (calls': seq<(string, Prop)>, events': seq<Event>, ghost subs': seq<Subscription>)
    requires i < |attributes|
    requires calls == BoundCalls(attributes[..i]) && events == BoundEffects(e, attributes[..i])
    requires BoundOf(e) == BindAll(b0, calls)
    requires e.subscriptions == subs0 + subs && |subs| == |Filter(attributes[..i], IsBoundAttribute)|
    modifies e`className, e`style, e`order, e`attributes, e`props, e`subscriptions
    ensures calls' == BoundCalls(attributes[..i + 1]) && events' == BoundEffects(e, attributes[..i + 1])
    ensures BoundOf(e) == BindAll(b0, calls')
    ensures e.subscriptions == subs0 + subs' && |subs'| == |Filter(attributes[..i + 1], IsBoundAttribute)|
    ensures forall s | s in subs' :: s in subs || (fresh(s) && !s.closed)
  {
    BoundSnoc(e, attributes, i);
    FilterSnoc(attributes, i, IsBoundAttribute);
    calls', events', subs' := calls, events, subs;
    if IsBoundAttribute(attributes[i]) {
      var c, ev, sub := SubscribeBinding(e, attributes[i].0, attributes[i].1.stream);
      BindAllAppend(b0, calls, c);
      calls', events', subs' := calls + c, events + ev, subs + [sub];
    }
  }

  /** The attribute bindings, subscribed in order, each subscription owned by `e`. */
  method SubscribeAttributes(e: Element, attributes: seq<(string, Prop)>)
    returns (calls: seq<(string, Prop)>, events: seq<Event>, ghost subs: seq<Subscription>)
    modifies e`className, e`style, e`order, e`attributes, e`props, e`subscriptions
    ensures calls == BoundCalls(attributes) && events == BoundEffects(e, attributes)
    ensures BoundOf(e) == BindAll(old(BoundOf(e)), calls)
    ensures e.subscriptions == old(e.subscriptions) + subs
    ensures |subs| == |Filter(attributes, IsBoundAttribute)|
    ensures forall s | s in subs :: fresh(s) && !s.closed
  {
    calls := [];
    events := [];
    subs := [];
    ghost var b0 := BoundOf(e);
    var i := 0;
    while i < |attributes|
      invariant 0 <= i <= |attributes|
      invariant calls == BoundCalls(attributes[..i]) && events == BoundEffects(e, attributes[..i])
      invariant BoundOf(e) == BindAll(b0, calls)
      invariant e.subscriptions == old(e.subscriptions) + subs
      invariant |subs| == |Filter(attributes[..i], IsBoundAttribute)|
      invariant forall s | s in subs :: fresh(s) && !s.closed
    {
      calls, events, subs := SubscribeNext(e, attributes, i, calls, events, b0, old(e.subscriptions), subs);
      i := i + 1;
    }
    assert attributes[..i] == attributes;
  }

  // ---------------------------------------------------------------------
  // The placeholder of a reactive child
  // ---------------------------------------------------------------------

  /** The tag of the placeholder element, `${customElementPrefix}-placeholder`. */
  const PlaceholderTag: string := CustomElementPrefix + "-placeholder"

  /** The truthiness of a placeholder's value: a description is shown, nothing is not. */
  predicate IsDescription(v: Option<VDom>) {
    v.Some?
  }

  /** Replacing an occupant puts the replacement where the occupant was. */
  lemma ReplacedShows(s: seq<Element>, x: Element, y: Element)
    requires x in s
    ensures y in Replaced(s, x, y)
  {
    var i :| 0 <= i < |s| && s[i] == x;
    assert Replaced(s, x, y)[i] == y;
  }

  /** Replacing `x` by `y` and then removing `y` removes `x`, when `y` is `x` or was not there. */
  lemma {:induction false} WithoutReplaced(s: seq<Element>, t: seq<Element>, x: Element, y: Element)
    requires |t| == |s| && forall j | 0 <= j < |s| :: t[j] == if s[j] == x then y else s[j]
    requires y == x || y !in s
    ensures Without(t, y) == Without(s, x)
    decreases |s|
  {
    if |s| > 0 {
      assert forall j | 0 <= j < |s| - 1 :: t[1..][j] == t[j + 1] && s[1..][j] == s[j + 1];
      WithoutReplaced(s[1..], t[1..], x, y);
    }
  }

  /** `children` is `children0` with `occupant` in every place `placeholder` held. */
  ghost predicate InSlot(children0: seq<Element>, children: seq<Element>, placeholder: Element, occupant: Element)
  {
    |children| == |children0|
    && forall j | 0 <= j < |children0| :: children[j] == if children0[j] == placeholder then occupant else children0[j]
  }

  /** Replacing the occupant of the slot by `next` keeps the slot, with `next` in it. */
  lemma InSlotReplaced(children0: seq<Element>, children: seq<Element>, placeholder: Element, occupant: Element, next: Element)
    requires InSlot(children0, children, placeholder, occupant) && (occupant == placeholder || occupant !in children0)
    ensures InSlot(children0, Replaced(children, occupant, next), placeholder, next)
  {
  }

  /** A value `apply` gets past `render`: a falsy one, or a description whose tag renders. */
  predicate Showable(v: Option<VDom>) {
    v.None? || RenderedTag(v.value).Success?
  }

  /** `x` holds the rendering of `v`: the tag `render` gives it, and the description stored. */
  predicate Holds(x: Element, v: VDom)
    reads x`vDom
  {
    RenderedTag(v) == Success(x.tag) && x.vDom == Some(v)
  }

  /** Some call among `calls` hands `apply` a falsy value. */
  predicate HasFalsy(calls: seq<Finalization<Option<VDom>>>) {
    exists k | 0 <= k < |calls| :: calls[k].value.None?
  }

  lemma HasFalsySnoc(calls: seq<Finalization<Option<VDom>>>, i: nat)
    requires i < |calls|
    ensures HasFalsy(calls[..i + 1]) <==> HasFalsy(calls[..i]) || calls[i].value.None?
  {
    if calls[i].value.None? {
      assert calls[..i + 1][i] == calls[i];
    }
    if HasFalsy(calls[..i]) {
      var k :| 0 <= k < i && calls[..i][k].value.None?;
      assert calls[..i + 1][k] == calls[..i][k];
    }
  }

  /**
   * What one `finalize` call of a placeholder's binding leaves behind: the
   * render error RxJS reports, the `TypeError` of a slot left without a
   * current element, or `sideEffects` with what was shown.
   */
  function ApplyEvent(c: Finalization<Option<VDom>>, shown: Element?, stranded: bool, sideEffects: bool): (r: seq<Event>)
    ensures |r| <= 1 && (sideEffects ==> |r| == 1)
    ensures |r| == 1 ==> (r[0].Reported? <==> !Showable(c.value) || stranded) && (r[0].Reported? || r[0].Resolved?)
    ensures !Showable(c.value) || stranded ==> |r| == 1
  {
    if !Showable(c.value) then [Reported(RenderedTag(c.value.value).error)]
    else if stranded then [Reported(ReplaceOnUndefined)]
    else if sideEffects then [Resolved(shown, c.domainData)]
    else []
  }

  /**
   * What the `finalize` calls `calls` leave behind, in order, call `i`
   * having shown `shown[i]`. As written, every call after a falsy value
   * finds no current element.
   */
  function ApplyEvents(calls: seq<Finalization<Option<VDom>>>, shown: seq<Element?>, sideEffects: bool, asWritten: bool): (r: seq<Event>)
    requires |shown| == |calls|
    ensures |r| <= |calls| && (sideEffects ==> |r| == |calls|)
    decreases |calls|
  {
    if |calls| == 0 then []
    else
      var n := |calls| - 1;
      ApplyEvents(calls[..n], shown[..n], sideEffects, asWritten)
        + ApplyEvent(calls[n], shown[n], asWritten && HasFalsy(calls[..n]), sideEffects)
  }

  /** A placeholder's binding only reports errors and, when `sideEffects` is set, calls it. */
  lemma {:induction false} ApplyEventsKinds(calls: seq<Finalization<Option<VDom>>>, shown: seq<Element?>, sideEffects: bool, asWritten: bool)
    requires |shown| == |calls|
    ensures forall j | 0 <= j < |ApplyEvents(calls, shown, sideEffects, asWritten)| ::
              ApplyEvents(calls, shown, sideEffects, asWritten)[j].Reported?
              || (sideEffects && ApplyEvents(calls, shown, sideEffects, asWritten)[j].Resolved?)
    decreases |calls|
  {
    if |calls| > 0 {
      var n := |calls| - 1;
      ApplyEventsKinds(calls[..n], shown[..n], sideEffects, asWritten);
    }
  }

  lemma ApplyEventsSnoc(calls: seq<Finalization<Option<VDom>>>, shown: seq<Element?>, x: Element?, i: nat, sideEffects: bool, asWritten: bool)
    requires i < |calls| && |shown| == i
    ensures ApplyEvents(calls[..i + 1], shown + [x], sideEffects, asWritten)
            == ApplyEvents(calls[..i], shown, sideEffects, asWritten) + ApplyEvent(calls[i], x, asWritten && HasFalsy(calls[..i]), sideEffects)
  {
    assert calls[..i + 1][..i] == calls[..i];
    assert (shown + [x])[..i] == shown;
  }

  /**
   * The first `|shown|` calls of `calls` logged `events`, call `k` having
   * shown `shown[k]`, which is nothing for a falsy value.
   */
  predicate AppliedLog(calls: seq<Finalization<Option<VDom>>>, shown: seq<Element?>, events: seq<Event>, sideEffects: bool, asWritten: bool)
  {
    |shown| <= |calls|
    && events == ApplyEvents(calls[..|shown|], shown, sideEffects, asWritten)
    && forall k | 0 <= k < |shown| :: calls[k].value.None? ==> shown[k] == null
  }

  /** One more call logs what it leaves behind after the earlier ones. */
  lemma AppliedLogSnoc(calls: seq<Finalization<Option<VDom>>>, shown: seq<Element?>, events: seq<Event>, x: Element?,
                   sideEffects: bool, asWritten: bool)
    requires |shown| < |calls| && AppliedLog(calls, shown, events, sideEffects, asWritten)
    requires calls[|shown|].value.None? ==> x == null
    ensures AppliedLog(calls, shown + [x],
                   events + ApplyEvent(calls[|shown|], x, asWritten && HasFalsy(calls[..|shown|]), sideEffects),
                   sideEffects, asWritten)
  {
    ApplyEventsSnoc(calls, shown, x, |shown|, sideEffects, asWritten);
    var shown' := shown + [x];
    forall k | 0 <= k < |shown'| && calls[k].value.None?
      ensures shown'[k] == null
    {
      if k < |shown| {
        assert shown'[k] == shown[k];
      }
    }
  }

  /** Without a falsy value the slot is never left empty, and the code as written logs what the kept slot logs. */
  lemma {:induction false} AsWrittenAgreesWithoutFalsy(calls: seq<Finalization<Option<VDom>>>, shown: seq<Element?>, sideEffects: bool)
    requires |shown| == |calls| && !HasFalsy(calls)
    ensures ApplyEvents(calls, shown, sideEffects, true) == ApplyEvents(calls, shown, sideEffects, false)
    decreases |calls|
  {
    if |calls| > 0 {
      var n := |calls| - 1;
      HasFalsySnoc(calls, n);
      assert calls[..n + 1] == calls;
      AsWrittenAgreesWithoutFalsy(calls[..n], shown[..n], sideEffects);
    }
  }

  /**
   * What stands in the slot after `calls`: the last shown rendering, or
   * the placeholder when no value got past `render` or the last that did
   * was falsy.
   */
  function Occupant(calls: seq<Finalization<Option<VDom>>>, shown: seq<Element?>, placeholder: Element): Element?
    requires |shown| == |calls|
    decreases |calls|
  {
    if |calls| == 0 then placeholder
    else
      var n := |calls| - 1;
      if !Showable(calls[n].value) then Occupant(calls[..n], shown[..n], placeholder)
      else if calls[n].value.None? then placeholder
      else shown[n]
  }

  /** One more call leaves the rendering it shows in the slot, the placeholder for a falsy value, or the occupant before. */
  lemma OccupantSnoc(calls: seq<Finalization<Option<VDom>>>, shown: seq<Element?>, x: Element?, placeholder: Element)
    requires |shown| < |calls|
    ensures Occupant(calls[..|shown| + 1], shown + [x], placeholder)
            == if !Showable(calls[|shown|].value) then Occupant(calls[..|shown|], shown, placeholder)
               else if calls[|shown|].value.None? then placeholder
               else x
  {
    var i := |shown|;
    assert calls[..i + 1][..i] == calls[..i];
    assert (shown + [x])[..i] == shown;
  }

  /**
   * With the slot kept, the slot of `children0` after `calls` when
   * `current` stands in it and the parent's children are `children`: the
   * occupant `calls` leave, in every place the placeholder held.
   */
  ghost predicate Slot(calls: seq<Finalization<Option<VDom>>>, shown: seq<Element?>, current: Element,
                       children: seq<Element>, children0: seq<Element>, placeholder: Element)
    requires |shown| == |calls|
  {
    current == Occupant(calls, shown, placeholder)
    && (current == placeholder || current !in children0)
    && InSlot(children0, children, placeholder, current)
  }

  /**
   * One more call with the slot kept: a value `render` rejects changes
   * nothing, any other puts what it shows (the placeholder for a falsy
   * value) in the occupant's place.
   */
  lemma SlotSnoc(calls: seq<Finalization<Option<VDom>>>, shown: seq<Element?>, x: Element?, current: Element, next: Element,
                 children: seq<Element>, after: seq<Element>, children0: seq<Element>, placeholder: Element)
    requires |shown| < |calls| && Slot(calls[..|shown|], shown, current, children, children0, placeholder)
    requires !Showable(calls[|shown|].value) ==> x == null && next == current && after == children
    requires Showable(calls[|shown|].value) && calls[|shown|].value.None? ==>
               x == null && next == placeholder && after == Replaced(children, current, placeholder)
    requires Showable(calls[|shown|].value) && calls[|shown|].value.Some? ==>
               x == next && next != placeholder && next !in children0 && after == Replaced(children, current, next)
    ensures Slot(calls[..|shown| + 1], shown + [x], next, after, children0, placeholder)
  {
    OccupantSnoc(calls, shown, x, placeholder);
    if Showable(calls[|shown|].value) {
      InSlotReplaced(children0, children, placeholder, current, next);
    }
  }

  /**
   * As written, the slot of `children0` after `calls`: until a falsy value
   * as with the slot kept; from the first falsy value on, no current
   * element and the slot gone from the children.
   */
  ghost predicate SlotAsWritten(calls: seq<Finalization<Option<VDom>>>, shown: seq<Element?>, current: Element?,
                                children: seq<Element>, children0: seq<Element>, placeholder: Element)
    requires |shown| == |calls|
  {
    if HasFalsy(calls) then current == null && children == Without(children0, placeholder)
    else current != null && Slot(calls, shown, current, children, children0, placeholder)
  }

  /**
   * One more call as written: with no current element or a value `render`
   * rejects nothing changes; a falsy value removes the occupant; any other
   * value takes its place.
   */
  lemma SlotAsWrittenSnoc(calls: seq<Finalization<Option<VDom>>>, shown: seq<Element?>, x: Element?, current: Element?, next: Element?,
                          children: seq<Element>, after: seq<Element>, children0: seq<Element>, placeholder: Element)
    requires |shown| < |calls| && SlotAsWritten(calls[..|shown|], shown, current, children, children0, placeholder)
    requires !Showable(calls[|shown|].value) || current == null ==> x == null && next == current && after == children
    requires Showable(calls[|shown|].value) && current != null && calls[|shown|].value.None? ==>
               x == null && next == null && after == Without(children, current)
    requires Showable(calls[|shown|].value) && current != null && calls[|shown|].value.Some? ==>
               x == next && next != null && next != placeholder && next !in children0 && after == Replaced(children, current, next)
    ensures SlotAsWritten(calls[..|shown| + 1], shown + [x], next, after, children0, placeholder)
  {
    var i := |shown|;
    HasFalsySnoc(calls, i);
    OccupantSnoc(calls, shown, x, placeholder);
    if current != null && Showable(calls[i].value) {
      if calls[i].value.None? {
        WithoutReplaced(children0, children, placeholder, current);
      } else {
        InSlotReplaced(children0, children, placeholder, current, next);
      }
    }
  }

  /**
   * Each call among `calls` whose value renders holds that value in what
   * it shows; as written, only until the first falsy value.
   */
  ghost predicate ShownHold(calls: seq<Finalization<Option<VDom>>>, shown: seq<Element?>, asWritten: bool)
    requires |shown| <= |calls|
    reads (set k | 0 <= k < |shown| && shown[k] != null :: shown[k])`vDom
  {
    forall k | 0 <= k < |shown| && calls[k].value.Some? && Showable(calls[k].value) && !(asWritten && HasFalsy(calls[..k])) ::
      shown[k] != null && Holds(shown[k], calls[k].value.value)
  }

  /** One more call keeps every earlier rendering held and adds its own. */
  lemma ShownHoldSnoc(calls: seq<Finalization<Option<VDom>>>, shown: seq<Element?>, x: Element?, asWritten: bool)
    requires |shown| < |calls| && ShownHold(calls, shown, asWritten)
    requires calls[|shown|].value.Some? && Showable(calls[|shown|].value) && !(asWritten && HasFalsy(calls[..|shown|])) ==>
               x != null && Holds(x, calls[|shown|].value.value)
    ensures ShownHold(calls, shown + [x], asWritten)
  {
    var shown' := shown + [x];
    forall k | 0 <= k < |shown'| && calls[k].value.Some? && Showable(calls[k].value) && !(asWritten && HasFalsy(calls[..k]))
      ensures shown'[k] != null && Holds(shown'[k], calls[k].value.value)
    {
      if k < |shown| {
        assert shown'[k] == shown[k];
      }
    }
  }

  /**
   * `HTMLPlaceHolderElement`: holds the place of one reactive child of
   * `parent`. `element` is the placeholder element itself;
   * `currentElement` is what now stands in its place (`null` models
   * `undefined`).
   */
  class PlaceHolder {
    const element: Element
    const parent: Element
    var currentElement: Element?

    /** `document.createElement(PlaceholderTag)`, to be appended to `parent`. */
    constructor (parent: Element)
      ensures this.parent == parent && fresh(element)
      ensures element.tag == PlaceholderTag && element.Blank() && currentElement == null
    {
      this.parent := parent;
      element := new Element(PlaceholderTag, "");
      currentElement := null;
    }

    /**
     * `apply(vDom)` as written: render a truthy value, then
     * `currentElement.replaceWith(div)`, which removes the occupant when
     * `div` is undefined; the occupant becomes `div`. With no current
     * element the call throws a `TypeError`.
     */
    method ApplyAsWritten(v: Option<VDom>) returns (r: Result<Element?, RenderError>)
      modifies this`currentElement, parent`children
      ensures v.Some? && RenderedTag(v.value).Failure? ==>
                r == Failure(RenderedTag(v.value).error)
                && currentElement == old(currentElement) && parent.children == old(parent.children)
      ensures (v.None? || RenderedTag(v.value).Success?) && old(currentElement) == null ==>
                r == Failure(ReplaceOnUndefined)
                && currentElement == null && parent.children == old(parent.children)
      ensures (v.None? || RenderedTag(v.value).Success?) && old(currentElement) != null ==> r.Success?
      ensures r.Success? ==> old(currentElement) != null && currentElement == r.value
      ensures r.Success? && v.None? ==>
                r.value == null && parent.children == Without(old(parent.children), old(currentElement))
      ensures r.Success? && v.Some? ==>
                r.value != null && fresh(r.value) && Rendered(r.value, v.value)
                && parent.children == Replaced(old(parent.children), old(currentElement), r.value)
    {
      var div: Element? := null;
      if v.Some? {
        var rendered, _ := Render(v);
        if rendered.Failure? {
          return Failure(rendered.error);
        }
        div := rendered.value;
      }
      if currentElement == null {
        return Failure(ReplaceOnUndefined);
      }
      if div == null {
        parent.RemoveChild(currentElement);
      } else {
        parent.ReplaceChild(currentElement, div);
      }
      currentElement := div;
      return Success(div);
    }

    /**
     * As written, a falsy value empties the slot for good: the occupant is
     * removed, `currentElement` becomes undefined, and the next value fails
     * with a `TypeError` however well it renders.
     */
    method FalsyValueStrandsSlotAsWritten(v: VDom) returns (first: Result<Element?, RenderError>, second: Result<Element?, RenderError>)
      requires currentElement != null && RenderedTag(v).Success?
      modifies this`currentElement, parent`children
      ensures first == Success(null) && second == Failure(ReplaceOnUndefined)
      ensures currentElement == null && old(currentElement) !in parent.children
      ensures parent.children == Without(old(parent.children), old(currentElement))
    {
      first := ApplyAsWritten(None);
      second := ApplyAsWritten(Some(v));
    }

    /**
     * `apply(vDom)` with the slot kept: a falsy value puts the placeholder
     * element itself back in place of the occupant, so a current element
     * always exists and a later value can take its place.
     */
    method Apply(v: Option<VDom>) returns (r: Result<Element?, RenderError>)
      requires currentElement != null
      modifies this`currentElement, parent`children
      ensures currentElement != null
      ensures v.Some? && RenderedTag(v.value).Failure? ==>
                r == Failure(RenderedTag(v.value).error)
                && currentElement == old(currentElement) && parent.children == old(parent.children)
      ensures (v.None? || RenderedTag(v.value).Success?) ==> r.Success?
      ensures r.Success? && v.None? ==>
                r.value == null && currentElement == element
                && parent.children == Replaced(old(parent.children), old(currentElement), element)
      ensures r.Success? && v.Some? ==>
                r.value == currentElement && fresh(currentElement) && Rendered(currentElement, v.value)
                && parent.children == Replaced(old(parent.children), old(currentElement), currentElement)
    {
      var occupant: Element := element;
      if v.Some? {
        var rendered, _ := Render(v);
        if rendered.Failure? {
          return Failure(rendered.error);
        }
        occupant := rendered.value;
      }
      parent.ReplaceChild(currentElement, occupant);
      currentElement := occupant;
      return Success(if v.Some? then occupant else null);
    }

    /**
     * `initialize(stream$)` as written: the placeholder itself is the first
     * occupant, then each `finalize` call of the binding applies its value
     * with `ApplyAsWritten`. An `untilFirst` that fails to render throws out
     * of `initialize`, so no subscription is made; a later call that throws
     * is reported by RxJS and the subscription goes on. The first falsy
     * value takes the slot out of `parent` for good. `shown[i]` is what call
     * `i` rendered.
     */
    method InitializeAsWritten(s: RxStream<Option<VDom>>)
      returns (sub: Subscription?, events: seq<Event>, failure: Option<RenderError>, ghost shown: seq<Element?>)
      modifies this`currentElement, parent`children
      ensures failure.Some? <==> InitialApplies(s, IsDescription) && !Showable(Finalizations(s, IsDescription)[0].value)
      ensures failure.Some? ==>
                failure.value == RenderedTag(Finalizations(s, IsDescription)[0].value.value).error && sub == null && events == []
      ensures failure.None? ==> sub != null && fresh(sub) && !sub.closed && |shown| == |Finalizations(s, IsDescription)|
      ensures failure.None? ==> events == ApplyEvents(Finalizations(s, IsDescription), shown, s.sideEffects, true)
      ensures failure.None? ==>
                forall i | 0 <= i < |shown| ::
                  (Finalizations(s, IsDescription)[i].value.None? ==> shown[i] == null)
                  && (Finalizations(s, IsDescription)[i].value.Some? && Showable(Finalizations(s, IsDescription)[i].value)
                      && !HasFalsy(Finalizations(s, IsDescription)[..i]) ==>
                        shown[i] != null && fresh(shown[i]) && Holds(shown[i], Finalizations(s, IsDescription)[i].value.value))
      ensures failure.None? && !HasFalsy(Finalizations(s, IsDescription)) ==>
                currentElement == Occupant(Finalizations(s, IsDescription), shown, element)
                && currentElement != null && (currentElement == element || fresh(currentElement))
                && |parent.children| == |old(parent.children)|
                && forall j | 0 <= j < |parent.children| ::
                     parent.children[j] == if old(parent.children)[j] == element then currentElement else old(parent.children)[j]
      ensures failure.None? && HasFalsy(Finalizations(s, IsDescription)) ==>
                currentElement == null && parent.children == Without(old(parent.children), element)
    {
      var calls := Subscribe(s, IsDescription);
      currentElement := element;
      events, failure, shown := ApplyAllAsWritten(calls, |InitialFinalizations(s, IsDescription)|, s.sideEffects);
      sub := null;
      if failure.None? {
        assert calls[..|shown|] == calls;
        sub := new Subscription();
      }
    }

    /**
     * The `finalize` calls `calls` applied in order with `ApplyAsWritten`,
     * from the placeholder as occupant; the first `initial` of them are
     * made inside `initialize`, so their errors are thrown to its caller.
     */
    method ApplyAllAsWritten(calls: seq<Finalization<Option<VDom>>>, initial: nat, sideEffects: bool)
      returns (events: seq<Event>, failure: Option<RenderError>, ghost shown: seq<Element?>)
      requires initial <= 1 && currentElement == element
      modifies this`currentElement, parent`children
      ensures failure.Some? <==> initial == 1 && |calls| > 0 && !Showable(calls[0].value)
      ensures failure.Some? ==> failure.value == RenderedTag(calls[0].value.value).error && events == []
      ensures failure.None? ==> |shown| == |calls| && AppliedAsWritten(calls, shown, events, sideEffects, old(parent.children))
      ensures failure.None? ==> forall k | 0 <= k < |calls| && shown[k] != null :: fresh(shown[k])
      ensures currentElement == null || currentElement == element || fresh(currentElement)
    {
      events, shown := [], [];
      var i := 0;
      while i < |calls|
        invariant 0 <= i <= |calls| && |shown| == i
        invariant i > 0 && initial == 1 ==> Showable(calls[0].value)
        invariant AppliedAsWritten(calls, shown, events, sideEffects, old(parent.children))
        invariant currentElement == null || currentElement == element || fresh(currentElement)
        invariant forall k | 0 <= k < i && shown[k] != null :: fresh(shown[k])
      {
        var r;
        ghost var x;
        r, x := ApplyCallAsWritten(calls, i, shown, old(parent.children));
        if r.Failure? && i < initial {
          return [], Some(r.error), shown;
        }
        AppliedLogSnoc(calls, shown, events, x, sideEffects, true);
        events := events + if r.Failure? then [Reported(r.error)] else if sideEffects then [Resolved(r.value, calls[i].domainData)] else [];
        shown, i := shown + [x], i + 1;
      }
      failure := None;
    }

    /**
     * What the first `|shown|` calls of `calls` leave behind as written:
     * `events` logged, and the DOM as `HeldAsWritten` says.
     */
    ghost predicate AppliedAsWritten(calls: seq<Finalization<Option<VDom>>>, shown: seq<Element?>, events: seq<Event>,
                                     sideEffects: bool, children0: seq<Element>)
      reads this, parent, currentElement, (set k | 0 <= k < |shown| && shown[k] != null :: shown[k])`vDom
    {
      AppliedLog(calls, shown, events, sideEffects, true) && HeldAsWritten(calls, shown, children0)
    }

    /**
     * The DOM after the first `|shown|` calls of `calls` as written: the
     * slot of `children0` as `SlotAsWritten` says, an occupant other than
     * the placeholder holding a description, and each call's rendering
     * held until the first falsy value.
     */
    ghost predicate HeldAsWritten(calls: seq<Finalization<Option<VDom>>>, shown: seq<Element?>, children0: seq<Element>)
      requires |shown| <= |calls|
      reads this, parent, currentElement, (set k | 0 <= k < |shown| && shown[k] != null :: shown[k])`vDom
    {
      SlotAsWritten(calls[..|shown|], shown, currentElement, parent.children, children0, element)
      && (currentElement != null && currentElement != element ==> currentElement.vDom.Some?)
      && ShownHold(calls, shown, true)
    }

    /**
     * One more `finalize` call of `ApplyAllAsWritten`: `apply` its value as
     * written. `x` is what it shows.
     */
    method ApplyCallAsWritten(calls: seq<Finalization<Option<VDom>>>, i: nat, ghost shown: seq<Element?>, ghost children0: seq<Element>)
      returns (r: Result<Element?, RenderError>, ghost x: Element?)
      requires i == |shown| < |calls| && HeldAsWritten(calls, shown, children0)
      modifies this`currentElement, parent`children
      ensures r.Failure? <==> !Showable(calls[i].value) || HasFalsy(calls[..i])
      ensures !Showable(calls[i].value) ==> r == Failure(RenderedTag(calls[i].value.value).error)
      ensures Showable(calls[i].value) && HasFalsy(calls[..i]) ==> r == Failure(ReplaceOnUndefined)
      ensures x == (if r.Success? then r.value else null) && (x != null ==> fresh(x))
      ensures calls[i].value.None? ==> x == null
      ensures currentElement == null || currentElement == old(currentElement) || currentElement == element || currentElement == x
      ensures HeldAsWritten(calls, shown + [x], children0)
    {
      ghost var before := parent.children;
      r := ApplyAsWritten(calls[i].value);
      x := if r.Success? then r.value else null;
      SlotAsWrittenSnoc(calls, shown, x, old(currentElement), currentElement, before, parent.children, children0, element);
      ShownHoldSnoc(calls, shown, x, true);
    }

    /**
     * `initialize(stream$)` with the slot kept (`Apply`): the placeholder
     * itself is the first occupant, then each `finalize` call of the
     * binding applies its value. An `untilFirst` that fails to render throws
     * out of `initialize`, so no subscription is made; a later value that
     * fails is reported by RxJS and the subscription goes on. Only the
     * placeholder's slot in `parent` changes, and it ends holding the
     * rendering of the last value that got past `render`, or the
     * placeholder. `shown[i]` is what call `i` rendered.
     */
    method Initialize(s: RxStream<Option<VDom>>)
      returns (sub: Subscription?, events: seq<Event>, failure: Option<RenderError>, ghost shown: seq<Element?>)
      modifies this`currentElement, parent`children
      ensures currentElement != null
      ensures currentElement == element || (fresh(currentElement) && currentElement.vDom.Some?)
      ensures |parent.children| == |old(parent.children)|
      ensures forall j | 0 <= j < |parent.children| ::
                parent.children[j] == if old(parent.children)[j] == element then currentElement else old(parent.children)[j]
      ensures failure.Some? <==> InitialApplies(s, IsDescription) && !Showable(Finalizations(s, IsDescription)[0].value)
      ensures failure.Some? ==>
                failure.value == RenderedTag(Finalizations(s, IsDescription)[0].value.value).error && sub == null && events == []
      ensures failure.None? ==> sub != null && fresh(sub) && !sub.closed && |shown| == |Finalizations(s, IsDescription)|
      ensures failure.None? ==> events == ApplyEvents(Finalizations(s, IsDescription), shown, s.sideEffects, false)
      ensures failure.None? ==>
                forall i | 0 <= i < |shown| ::
                  (Finalizations(s, IsDescription)[i].value.None? ==> shown[i] == null)
                  && (Finalizations(s, IsDescription)[i].value.Some? && Showable(Finalizations(s, IsDescription)[i].value) ==>
                        shown[i] != null && fresh(shown[i]) && Holds(shown[i], Finalizations(s, IsDescription)[i].value.value))
      ensures failure.None? ==> currentElement == Occupant(Finalizations(s, IsDescription), shown, element)
    {
      var calls := Subscribe(s, IsDescription);
      currentElement := element;
      events, failure, shown := ApplyAll(calls, |InitialFinalizations(s, IsDescription)|, s.sideEffects);
      sub := null;
      if failure.None? {
        assert calls[..|shown|] == calls;
        sub := new Subscription();
      }
    }

    /**
     * The `finalize` calls `calls` applied in order with `Apply`, from the
     * placeholder as occupant; the first `initial` of them are made inside
     * `initialize`, so their errors are thrown to its caller.
     */
    method ApplyAll(calls: seq<Finalization<Option<VDom>>>, initial: nat, sideEffects: bool)
      returns (events: seq<Event>, failure: Option<RenderError>, ghost shown: seq<Element?>)
      requires initial <= 1 && currentElement == element
      modifies this`currentElement, parent`children
      ensures failure.Some? <==> initial == 1 && |calls| > 0 && !Showable(calls[0].value)
      ensures failure.Some? ==>
                failure.value == RenderedTag(calls[0].value.value).error && events == []
                && currentElement == element && parent.children == old(parent.children)
      ensures failure.None? ==> |shown| == |calls| && Applied(calls, shown, events, sideEffects, old(parent.children))
      ensures failure.None? ==> forall k | 0 <= k < |calls| && shown[k] != null :: fresh(shown[k])
      ensures currentElement == element || fresh(currentElement)
    {
      events, shown := [], [];
      var i := 0;
      while i < |calls|
        invariant 0 <= i <= |calls| && |shown| == i
        invariant i > 0 && initial == 1 ==> Showable(calls[0].value)
        invariant Applied(calls, shown, events, sideEffects, old(parent.children))
        invariant currentElement == element || fresh(currentElement)
        invariant i == 0 ==> currentElement == element && parent.children == old(parent.children)
        invariant forall k | 0 <= k < i && shown[k] != null :: fresh(shown[k])
      {
        var r;
        ghost var x;
        r, x := ApplyCall(calls, i, shown, old(parent.children));
        if r.Failure? && i < initial {
          return [], Some(r.error), shown;
        }
        AppliedLogSnoc(calls, shown, events, x, sideEffects, false);
        events := events + if r.Failure? then [Reported(r.error)] else if sideEffects then [Resolved(r.value, calls[i].domainData)] else [];
        shown, i := shown + [x], i + 1;
      }
      failure := None;
    }

    /**
     * What the first `|shown|` calls of `calls` leave behind with the slot
     * kept: `events` logged, and the DOM as `Held` says.
     */
    ghost predicate Applied(calls: seq<Finalization<Option<VDom>>>, shown: seq<Element?>, events: seq<Event>,
                            sideEffects: bool, children0: seq<Element>)
      reads this, parent, currentElement, (set k | 0 <= k < |shown| && shown[k] != null :: shown[k])`vDom
    {
      AppliedLog(calls, shown, events, sideEffects, false) && Held(calls, shown, children0)
    }

    /**
     * The DOM after the first `|shown|` calls of `calls` with the slot
     * kept: the slot of `children0` held by the occupant, which is the
     * placeholder or holds a description, and each call's rendering held.
     */
    ghost predicate Held(calls: seq<Finalization<Option<VDom>>>, shown: seq<Element?>, children0: seq<Element>)
      requires |shown| <= |calls|
      reads this, parent, currentElement, (set k | 0 <= k < |shown| && shown[k] != null :: shown[k])`vDom
    {
      currentElement != null && Slot(calls[..|shown|], shown, currentElement, parent.children, children0, element)
      && (currentElement != element ==> currentElement.vDom.Some?)
      && ShownHold(calls, shown, false)
    }

    /**
     * One more `finalize` call of `ApplyAll`: `apply` its value. `x` is
     * what it shows.
     */
    method ApplyCall(calls: seq<Finalization<Option<VDom>>>, i: nat, ghost shown: seq<Element?>, ghost children0: seq<Element>)
      returns (r: Result<Element?, RenderError>, ghost x: Element?)
      requires i == |shown| < |calls| && Held(calls, shown, children0)
      modifies this`currentElement, parent`children
      ensures r.Failure? <==> !Showable(calls[i].value)
      ensures r.Failure? ==>
                r.error == RenderedTag(calls[i].value.value).error
                && currentElement == old(currentElement) && parent.children == old(parent.children)
      ensures x == (if r.Success? then r.value else null) && (x != null ==> fresh(x))
      ensures calls[i].value.None? ==> x == null
      ensures currentElement == old(currentElement) || currentElement == element || currentElement == x
      ensures Held(calls, shown + [x], children0)
    {
      ghost var before := parent.children;
      r := Apply(calls[i].value);
      x := if r.Success? then r.value else null;
      SlotSnoc(calls, shown, x, old(currentElement), currentElement, before, parent.children, children0, element);
      ShownHoldSnoc(calls, shown, x, false);
    }

    /**
     * As written, a binding whose first value is falsy and whose second is a
     * description that renders ends with the slot gone: the second call
     * finds no current element, RxJS reports its `TypeError`, and the
     * placeholder is no longer a child of `parent`.
     */
    method FalsyEmissionStrandsSlotAsWritten(s: RxStream<Option<VDom>>) returns (events: seq<Event>)
      requires |Finalizations(s, IsDescription)| == 2
      requires Finalizations(s, IsDescription)[0].value.None? && Showable(Finalizations(s, IsDescription)[1].value)
      requires element in parent.children
      modifies this`currentElement, parent`children
      ensures |events| >= 1 && events[|events| - 1] == Reported(ReplaceOnUndefined)
      ensures currentElement == null && element !in parent.children
    {
      var sub, failure;
      ghost var shown;
      sub, events, failure, shown := InitializeAsWritten(s);
      ghost var f := Finalizations(s, IsDescription);
      assert f[..1][0] == f[0];
      assert f[..2] == f;
      assert f[..2][..1] == f[..1];
      assert shown[..2] == shown;
    }

    /**
     * With the slot kept, the same binding ends with the rendering of its
     * second value in the placeholder's place, and nothing is reported.
     */
    method FalsyEmissionKeepsSlot(s: RxStream<Option<VDom>>) returns (events: seq<Event>)
      requires |Finalizations(s, IsDescription)| == 2
      requires Finalizations(s, IsDescription)[0].value.None? && Finalizations(s, IsDescription)[1].value.Some?
      requires Showable(Finalizations(s, IsDescription)[1].value)
      requires element in parent.children
      modifies this`currentElement, parent`children
      ensures forall j | 0 <= j < |events| :: !events[j].Reported?
      ensures currentElement != element && currentElement in parent.children
      ensures Holds(currentElement, Finalizations(s, IsDescription)[1].value.value)
    {
      var sub, failure;
      ghost var shown;
      sub, events, failure, shown := Initialize(s);
      ghost var f := Finalizations(s, IsDescription);
      assert f[..2] == f;
      assert f[..2][..1] == f[..1];
      assert shown[..2] == shown;
      ghost var k :| 0 <= k < |old(parent.children)| && old(parent.children)[k] == element;
      assert parent.children[k] == currentElement;
    }

    /** With the slot kept, a falsy value followed by a description shows that description in the slot. */
    method FalsyValueKeepsSlot(v: VDom) returns (first: Result<Element?, RenderError>, second: Result<Element?, RenderError>)
      requires currentElement != null && currentElement in parent.children && RenderedTag(v).Success?
      modifies this`currentElement, parent`children
      ensures first == Success(null) && second.Success? && second.value != null
      ensures currentElement == second.value && currentElement in parent.children && Rendered(currentElement, v)
    {
      ReplacedShows(parent.children, currentElement, element);
      first := Apply(None);
      ghost var emptied := parent.children;
      second := Apply(Some(v));
      ReplacedShows(emptied, element, currentElement);
    }
  }

  // ---------------------------------------------------------------------
  // The reactive trait: children
  // ---------------------------------------------------------------------

  /** `children.filter(child => child != undefined)`. */
  function Present(items: seq<RenderableChild>): seq<RenderableChild> {
    if |items| == 0 then []
    else
      var last := items[|items| - 1];
      Present(items[..|items| - 1]) + (if last.NoChild? then [] else [last])
  }

  /** The number of stream children, each of which gets a placeholder and an owned subscription. */
  function StreamCount(items: seq<RenderableChild>): nat {
    if |items| == 0 then 0
    else StreamCount(items[..|items| - 1]) + (if items[|items| - 1].StreamChild? then 1 else 0)
  }

  /** The children `renderChildren` returns an element for, in order: the bindings and the descriptions. */
  function Returned(items: seq<RenderableChild>): seq<RenderableChild> {
    if |items| == 0 then []
    else
      var last := items[|items| - 1];
      Returned(items[..|items| - 1]) + (if last.StreamChild? || last.DescriptionChild? then [last] else [])
  }

  /** The element `renderChildren` returns for a child: a binding's placeholder, or a description's rendering. */
  predicate ReturnedFor(x: Element, c: RenderableChild)
    reads x`vDom
  {
    match c
    case StreamChild(_) => x.tag == PlaceholderTag
    case DescriptionChild(v) => x.vDom == Some(v)
    case _ => false
  }

  /** Each of `xs` is the element returned for the child of `cs` at the same index. */
  ghost predicate ReturnsAll(xs: seq<Element>, cs: seq<RenderableChild>)
    reads xs
  {
    |xs| == |cs| && forall j :: 0 <= j < |xs| ==> ReturnedFor(xs[j], cs[j])
  }

  /**
   * What stands in the DOM for a child: an element is itself, a description
   * is its rendering, a binding is its placeholder or the placeholder's
   * current rendering.
   */
  predicate Shows(x: Element, c: RenderableChild)
    reads x`vDom
  {
    match c
    case NoChild => false
    case ElementChild(el) => x == el
    case DescriptionChild(v) => x.vDom == Some(v)
    case StreamChild(_) => x.tag == PlaceholderTag || x.vDom.Some?
  }

  /** No description's own lifecycle callback is among `events`. */
  predicate NoHookCalls(events: seq<Event>) {
    forall i | 0 <= i < |events| :: !events[i].CallbackCalled?
  }

  /** The effects of attribute bindings are `sideEffects` calls only. */
  lemma {:induction false} BoundEffectsResolved(e: Element, attributes: seq<(string, Prop)>)
    ensures forall i | 0 <= i < |BoundEffects(e, attributes)| :: BoundEffects(e, attributes)[i].Resolved?
    decreases |attributes|
  {
    if |attributes| > 0 {
      BoundEffectsResolved(e, attributes[..|attributes| - 1]);
    }
  }

  /**
   * The error rendering one child throws, if any: that of a description
   * `render` rejects, or that of a binding whose `untilFirst` it rejects.
   */
  function ChildError(c: RenderableChild): Option<RenderError> {
    match c
    case DescriptionChild(v) => if RenderedTag(v).Failure? then Some(RenderedTag(v).error) else None
    case StreamChild(s) =>
      if InitialApplies(s, IsDescription) && !Showable(Finalizations(s, IsDescription)[0].value)
      then Some(RenderedTag(Finalizations(s, IsDescription)[0].value.value).error)
      else None
    case _ => None
  }

  /** The error of the first child of `items` whose rendering throws, if any. */
  function FirstChildError(items: seq<RenderableChild>): Option<RenderError> {
    if |items| == 0 then None
    else if ChildError(items[0]).Some? then ChildError(items[0])
    else FirstChildError(items[1..])
  }

  /** The first error from child `i` on is that of child `i`, or the first after it. */
  lemma FirstChildErrorFrom(items: seq<RenderableChild>, i: nat)
    requires i < |items|
    ensures FirstChildError(items[i..]) == if ChildError(items[i]).Some? then ChildError(items[i]) else FirstChildError(items[i + 1..])
  {
    assert items[i..][0] == items[i] && items[i..][1..] == items[i + 1..];
  }

  /**
   * A list throws exactly when one of its children does, and then the error
   * of the first such child: every child before it renders.
   */
  lemma {:induction false} FirstChildErrorIsFirst(items: seq<RenderableChild>)
    ensures FirstChildError(items).None? <==> forall i | 0 <= i < |items| :: ChildError(items[i]).None?
    ensures FirstChildError(items).Some? ==>
              exists k | 0 <= k < |items| ::
                ChildError(items[k]) == FirstChildError(items) && forall j | 0 <= j < k :: ChildError(items[j]).None?
  {
    if |items| > 0 && ChildError(items[0]).None? {
      FirstChildErrorIsFirst(items[1..]);
      assert forall i | 1 <= i < |items| :: items[i] == items[1..][i - 1];
      if FirstChildError(items).Some? {
        var k :| 0 <= k < |items[1..]| && ChildError(items[1..][k]) == FirstChildError(items)
                 && forall j | 0 <= j < k :: ChildError(items[1..][j]).None?;
        assert ChildError(items[k + 1]) == FirstChildError(items);
      }
    }
  }

  /** A list of descriptions renders without error exactly when `render` accepts every one of their tags. */
  lemma DescriptionListRenders(items: seq<RenderableChild>)
    requires forall i | 0 <= i < |items| :: items[i].DescriptionChild?
    ensures ChildrenError(ChildList(items)).None? <==> forall i | 0 <= i < |items| :: RenderedTag(items[i].vDom).Success?
  {
    FirstChildErrorIsFirst(items);
  }

  /**
   * The error showing the children of a description throws, if any: that of
   * the first child of a list; for a children binding, that of the first
   * child of its `untilFirst` list; never one for a list reconciler.
   */
  function ChildrenError(c: ConvertedChildren): Option<RenderError> {
    match c
    case ChildList(items) => FirstChildError(items)
    case ReplaceStream(s) =>
      if InitialApplies(s, AnyList) then FirstChildError(Finalizations(s, AnyList)[0].value) else None
    case ListStream(_) => None
  }

  /**
   * One child of `renderChildren`: a binding gets a placeholder, appended
   * and initialised, whose subscription `e` owns; an element is appended;
   * a description is rendered and appended. The placeholder and the
   * rendering are returned.
   */
  method RenderChild(e: Element, c: RenderableChild) returns (shown: Element?, events: seq<Event>, failure: Option<RenderError>)
    modifies e`children, e`subscriptions
    ensures failure == ChildError(c)
    ensures |e.children| >= |old(e.children)| && e.children[..|old(e.children)|] == old(e.children)
    ensures failure.Some? ==> (c.DescriptionChild? || c.StreamChild?) && e.subscriptions == old(e.subscriptions)
    ensures failure.None? ==> |e.children| == |old(e.children)| + (if c.NoChild? then 0 else 1)
    ensures failure.None? && !c.NoChild? ==> Shows(e.children[|old(e.children)|], c)
    ensures failure.None? && !c.NoChild? && !c.ElementChild? ==> fresh(e.children[|old(e.children)|])
    ensures failure.None? ==> (shown != null <==> c.DescriptionChild? || c.StreamChild?)
    ensures shown != null ==> fresh(shown)
    ensures failure.None? && c.DescriptionChild? ==> shown == e.children[|old(e.children)|]
    ensures failure.None? && shown != null ==> ReturnedFor(shown, c)
    ensures failure.None? && !c.StreamChild? ==> e.subscriptions == old(e.subscriptions) && events == []
    ensures NoHookCalls(events)
    ensures failure.None? && c.StreamChild? ==>
              |e.subscriptions| == |old(e.subscriptions)| + 1 && e.subscriptions[..|old(e.subscriptions)|] == old(e.subscriptions)
              && fresh(e.subscriptions[|old(e.subscriptions)|]) && !e.subscriptions[|old(e.subscriptions)|].closed
  {
    shown, events, failure := null, [], None;
    match c
    case NoChild =>
    case ElementChild(el) =>
      e.AppendChild(el);
    case DescriptionChild(v) =>
      var rendered, _ := Render(Some(v));
      if rendered.Failure? {
        failure := Some(rendered.error);
        return;
      }
      e.AppendChild(rendered.value);
      shown := rendered.value;
    case StreamChild(s) =>
      var placeHolder := new PlaceHolder(e);
      e.AppendChild(placeHolder.element);
      var sub;
      ghost var rendered;
      sub, events, failure, rendered := placeHolder.Initialize(s);
      if failure.Some? {
        events := [];
        return;
      }
      ApplyEventsKinds(Finalizations(s, IsDescription), rendered, s.sideEffects, false);
      e.subscriptions := e.subscriptions + [sub];
      shown := placeHolder.element;
  }

  lemma PresentSnoc(items: seq<RenderableChild>, i: nat)
    requires i < |items|
    ensures Present(items[..i + 1]) == Present(items[..i]) + (if items[i].NoChild? then [] else [items[i]])
    ensures StreamCount(items[..i + 1]) == StreamCount(items[..i]) + (if items[i].StreamChild? then 1 else 0)
    ensures Returned(items[..i + 1]) == Returned(items[..i]) + (if items[i].StreamChild? || items[i].DescriptionChild? then [items[i]] else [])
  {
    assert items[..i + 1][..i] == items[..i];
  }

  /** Each of `xs` shows the child of `cs` at the same index. */
  ghost predicate ShowsAll(xs: seq<Element>, cs: seq<RenderableChild>)
    reads xs
  {
    |xs| == |cs| && forall j :: 0 <= j < |xs| ==> Shows(xs[j], cs[j])
  }

  /** The element returned for one more binding or description follows those returned before. */
  lemma ReturnsSnoc(xs: seq<Element>, x: Element, items: seq<RenderableChild>, i: nat)
    requires i < |items| && ReturnsAll(xs, Returned(items[..i]))
    requires ReturnedFor(x, items[i]) && (items[i].StreamChild? || items[i].DescriptionChild?)
    ensures ReturnsAll(xs + [x], Returned(items[..i + 1]))
  {
    PresentSnoc(items, i);
  }

  /** Renders child `i` of `renderChildren`, extending what the appended elements show by that child. */
  method RenderNext(e: Element, items: seq<RenderableChild>, i: nat, ghost start: seq<Element>, ghost base: nat,
                    rendered: seq<Element>)
    returns (returned: seq<Element>, events: seq<Event>, failure: Option<RenderError>)
    requires i < |items|
    requires e !in rendered && ReturnsAll(rendered, Returned(items[..i]))
    requires base <= |e.subscriptions| && forall k :: base <= k < |e.subscriptions| ==> !e.subscriptions[k].closed
    requires |e.children| >= |start| && e.children[..|start|] == start
    requires ShowsAll(e.children[|start|..], Present(items[..i]))
    modifies e`children, e`subscriptions
    ensures failure == ChildError(items[i])
    ensures |e.children| >= |start| && e.children[..|start|] == start
    ensures failure.None? ==> ShowsAll(e.children[|start|..], Present(items[..i + 1]))
    ensures forall x | x in returned :: x in rendered || fresh(x)
    ensures failure.None? ==> ReturnsAll(returned, Returned(items[..i + 1]))
    ensures failure.Some? ==> e.subscriptions == old(e.subscriptions)
    ensures NoHookCalls(events)
    ensures failure.None? ==>
              |e.subscriptions| == |old(e.subscriptions)| + (if items[i].StreamChild? then 1 else 0)
              && e.subscriptions[..|old(e.subscriptions)|] == old(e.subscriptions)
    ensures forall k :: base <= k < |e.subscriptions| ==> !e.subscriptions[k].closed
  {
    ghost var before, owned := e.children, e.subscriptions;
    var shown;
    shown, events, failure := RenderChild(e, items[i]);
    returned := rendered;
    forall k | base <= k < |e.subscriptions| ensures !e.subscriptions[k].closed {
      if k < |owned| {
        assert e.subscriptions[k] == owned[k];
      }
    }
    if failure.None? {
      PresentSnoc(items, i);
      if shown != null {
        ReturnsSnoc(rendered, shown, items, i);
        returned := rendered + [shown];
      }
      ghost var shownBefore := Present(items[..i]);
      assert e.children[|start|..] == before[|start|..] + e.children[|before|..];
      assert ShowsAll(before[|start|..], shownBefore);
      if !items[i].NoChild? {
        assert e.children[|before|..] == [e.children[|before|]];
      }
    }
  }

  /**
   * `renderChildren`: appends the present children in order, each shown as
   * `Shows` says, owns one open subscription per binding child and returns
   * the placeholders and renderings it created. A failing child stops the
   * walk and its error propagates.
   */
  method RenderChildren(e: Element, items: seq<RenderableChild>) returns (rendered: seq<Element>, events: seq<Event>, failure: Option<RenderError>)
    modifies e`children, e`subscriptions
    ensures failure == FirstChildError(items)
    ensures |e.children| >= |old(e.children)| && e.children[..|old(e.children)|] == old(e.children)
    ensures |e.subscriptions| >= |old(e.subscriptions)| && e.subscriptions[..|old(e.subscriptions)|] == old(e.subscriptions)
    ensures forall k :: |old(e.subscriptions)| <= k < |e.subscriptions| ==> !e.subscriptions[k].closed
    ensures forall x | x in rendered :: fresh(x)
    ensures failure.None? ==> ShowsAll(e.children[|old(e.children)|..], Present(items))
    ensures failure.None? ==> |e.subscriptions| == |old(e.subscriptions)| + StreamCount(items)
    ensures failure.None? ==> ReturnsAll(rendered, Returned(items))
    ensures NoHookCalls(events)
  {
    ghost var start, subs0 := e.children, e.subscriptions;
    rendered, events, failure := [], [], None;
    var i := 0;
    assert items[..0] == [];
    while i < |items|
      invariant i <= |items|
      invariant |e.children| >= |start| && e.children[..|start|] == start
      invariant ShowsAll(e.children[|start|..], Present(items[..i]))
      invariant |e.subscriptions| == |subs0| + StreamCount(items[..i]) && e.subscriptions[..|subs0|] == subs0
      invariant forall k :: |subs0| <= k < |e.subscriptions| ==> !e.subscriptions[k].closed
      invariant ReturnsAll(rendered, Returned(items[..i]))
      invariant forall x | x in rendered :: fresh(x)
      invariant NoHookCalls(events)
      invariant failure.None? && FirstChildError(items) == FirstChildError(items[i..])
    {
      FirstChildErrorFrom(items, i);
      var more;
      rendered, more, failure := RenderNext(e, items, i, start, |subs0|, rendered);
      events := events + more;
      if failure.Some? {
        return;
      }
      PresentSnoc(items, i);
      i := i + 1;
    }
    assert items[..i] == items;
  }

  /** An array is always truthy, so every `untilFirst` list is finalised. */
  predicate AnyList(items: seq<RenderableChild>) {
    true
  }

  /** One emission of a children binding: `replaceChildren()`, then `renderChildren` of the new list. */
  method ReplaceWith(e: Element, items: seq<RenderableChild>, ghost base: nat) returns (events: seq<Event>, failure: Option<RenderError>)
    requires base <= |e.subscriptions|
    requires forall k :: base <= k < |e.subscriptions| ==> !e.subscriptions[k].closed
    modifies e`children, e`subscriptions
    ensures failure == FirstChildError(items)
    ensures |e.subscriptions| >= |old(e.subscriptions)| && e.subscriptions[..base] == old(e.subscriptions)[..base]
    ensures forall k :: base <= k < |e.subscriptions| ==> !e.subscriptions[k].closed
    ensures failure.None? ==> ShowsAll(e.children, Present(items))
    ensures NoHookCalls(events)
  {
    ghost var owned := e.subscriptions;
    e.ReplaceChildren();
    var rendered;
    rendered, events, failure := RenderChildren(e, items);
    assert e.children[0..] == e.children;
    assert e.subscriptions[..|owned|][..base] == owned[..base];
    forall k | base <= k < |e.subscriptions| ensures !e.subscriptions[k].closed {
      if k < |owned| {
        assert e.subscriptions[k] == owned[k];
      }
    }
  }

  /**
   * The `RxChildren` binding of `connectedCallback`: every list the binding
   * finalises replaces the children. An error while rendering `untilFirst`
   * propagates; one while rendering an emission is reported and the binding
   * goes on. The subscription is owned last. `lastShown` says the last list
   * rendered without error; the children then show exactly that list.
   */
  method ConnectReplaceStream(e: Element, s: RxStream<seq<RenderableChild>>)
    returns (events: seq<Event>, failure: Option<RenderError>, ghost lastShown: bool)
    modifies e`children, e`subscriptions
    ensures |e.subscriptions| >= |old(e.subscriptions)| && e.subscriptions[..|old(e.subscriptions)|] == old(e.subscriptions)
    ensures forall k :: |old(e.subscriptions)| <= k < |e.subscriptions| ==> !e.subscriptions[k].closed
    ensures failure.Some? ==> InitialApplies(s, AnyList)
    ensures failure == if InitialApplies(s, AnyList) then FirstChildError(Finalizations(s, AnyList)[0].value) else None
    ensures failure.None? ==> |e.subscriptions| > |old(e.subscriptions)| && fresh(e.subscriptions[|e.subscriptions| - 1])
    ensures failure.None? && |Finalizations(s, AnyList)| == 0 ==> e.children == old(e.children) && events == [] && !lastShown
    ensures failure.None? && |Finalizations(s, AnyList)| > 0 ==>
              (lastShown <==> FirstChildError(Finalizations(s, AnyList)[|Finalizations(s, AnyList)| - 1].value).None?)
    ensures failure.None? && lastShown ==>
              |Finalizations(s, AnyList)| > 0 && ShowsAll(e.children, Present(Finalizations(s, AnyList)[|Finalizations(s, AnyList)| - 1].value))
    ensures failure.None? && !lastShown && |Finalizations(s, AnyList)| > 0 ==>
              |events| > 0 && events[|events| - 1] == Reported(FirstChildError(Finalizations(s, AnyList)[|Finalizations(s, AnyList)| - 1].value).value)
    ensures NoHookCalls(events)
  {
    var calls := Subscribe(s, AnyList);
    var initial := |InitialFinalizations(s, AnyList)|;
    events, failure, lastShown := [], None, false;
    var i := 0;
    while i < |calls|
      invariant 0 <= i <= |calls|
      invariant |e.subscriptions| >= |old(e.subscriptions)| && e.subscriptions[..|old(e.subscriptions)|] == old(e.subscriptions)
      invariant forall k :: |old(e.subscriptions)| <= k < |e.subscriptions| ==> !e.subscriptions[k].closed
      invariant i == 0 ==> e.children == old(e.children) && events == [] && !lastShown
      invariant lastShown ==> i > 0 && ShowsAll(e.children, Present(calls[i - 1].value))
      invariant i > 0 ==> (lastShown <==> FirstChildError(calls[i - 1].value).None?)
      invariant !lastShown && i > 0 ==> |events| > 0 && events[|events| - 1] == Reported(FirstChildError(calls[i - 1].value).value)
      invariant initial == 1 && i > 0 ==> FirstChildError(calls[0].value).None?
      invariant NoHookCalls(events) && failure.None?
    {
      var more, shown;
      more, failure, shown := ReplaceNext(e, calls[i], s.sideEffects, i < initial, |old(e.subscriptions)|);
      LastOfJoin(events, more);
      events := events + more;
      if failure.Some? {
        assert i == 0 && InitialApplies(s, AnyList);
        return;
      }
      lastShown := shown;
      i := i + 1;
    }
    assert InitialApplies(s, AnyList) ==> initial == 1 && i > 0;
    var sub := new Subscription();
    e.subscriptions := e.subscriptions + [sub];
  }

  /** Joining a log to events that end in `b` keeps that last event and logs no hook call when neither part does. */
  lemma LastOfJoin(a: seq<Event>, b: seq<Event>)
    ensures |b| > 0 ==> (a + b)[|a + b| - 1] == b[|b| - 1]
    ensures NoHookCalls(a) && NoHookCalls(b) ==> NoHookCalls(a + b)
  {
  }

  /**
   * One list `call` of a children binding: it replaces the children. When
   * `thrown` (the list is `untilFirst`) a rendering error propagates;
   * otherwise it is reported, and a list that renders is handed to
   * `sideEffects` when that is set. `shown` says the list rendered.
   */
  method ReplaceNext(e: Element, call: Finalization<seq<RenderableChild>>, sideEffects: bool, thrown: bool, ghost base: nat)
    returns (events: seq<Event>, failure: Option<RenderError>, shown: bool)
    requires base <= |e.subscriptions|
    requires forall k :: base <= k < |e.subscriptions| ==> !e.subscriptions[k].closed
    modifies e`children, e`subscriptions
    ensures |e.subscriptions| >= |old(e.subscriptions)| && e.subscriptions[..base] == old(e.subscriptions)[..base]
    ensures forall k :: base <= k < |e.subscriptions| ==> !e.subscriptions[k].closed
    ensures failure == if thrown then FirstChildError(call.value) else None
    ensures shown <==> FirstChildError(call.value).None?
    ensures shown ==> ShowsAll(e.children, Present(call.value))
    ensures !shown && !thrown ==> |events| > 0 && events[|events| - 1] == Reported(FirstChildError(call.value).value)
    ensures NoHookCalls(events)
  {
    var err;
    events, err := ReplaceWith(e, call.value, base);
    shown := err.None?;
    failure := None;
    if err.Some? {
      if thrown {
        failure := err;
        return;
      }
      events := events + [Reported(err.value)];
    } else if sideEffects {
      events := events + [Resolved(e, call.domainData)];
    }
  }

  /**
   * The `ChildrenStream$` binding of `connectedCallback`: a fresh list
   * reconciler subscribed with `e` as its parent, its subscription owned
   * last. An append list then holds the data of every pass that completed.
   */
  method ConnectListStream(e: Element, o: ListOptions) returns (events: seq<Event>, passes: nat, ghost cs: ChildrenStream)
    modifies e`children, e`subscriptions
    modifies set x | x in e.children && o.orderOperator.Some? :: x`order
    ensures fresh(cs) && cs.Valid() && cs.policy == o.policy && cs.source == o.source && cs.vDomMap == o.vDomMap
    ensures passes <= |o.source|
    ensures forall i | 0 <= i < |events| :: events[i].Reported? <==> passes < |o.source| && i == |events| - 1
    ensures passes < |o.source| ==>
              |events| > 0
              && exists k | 0 <= k < |o.source[passes]| ::
                   RenderedTag(o.vDomMap(o.source[passes][k])).Failure?
                   && events[|events| - 1] == Reported(RenderedTag(o.vDomMap(o.source[passes][k])).error)
    ensures (forall i, k | 0 <= i < |o.source| && 0 <= k < |o.source[i]| :: RenderedTag(o.vDomMap(o.source[i][k])).Success?)
            ==> passes == |o.source|
    ensures o.policy.Append? ==> forall i | 0 <= i < passes :: cs.FirstRenderError(o.source[i]).None?
    ensures o.policy.Append? && passes < |o.source| ==>
              cs.FirstRenderError(o.source[passes]).Some? && events[|events| - 1] == Reported(cs.FirstRenderError(o.source[passes]).value)
    ensures |Filter(events, IsUpdate)| == if o.sideEffects then passes else 0
    ensures o.policy.Append? ==> DomainDataOf(cs.children) == Concat(o.source[..passes])
    ensures o.policy.Sync? && Equivalence(o.policy.comparisonOperator) ==> cs.Synced()
    ensures |e.subscriptions| == |old(e.subscriptions)| + 1 && e.subscriptions[..|old(e.subscriptions)|] == old(e.subscriptions)
    ensures fresh(e.subscriptions[|old(e.subscriptions)|]) && !e.subscriptions[|old(e.subscriptions)|].closed
  {
    var stream := new ChildrenStream(o);
    var reports;
    events, passes, reports := stream.Subscribe(e);
    cs := stream;
    var sub := new Subscription();
    e.subscriptions := e.subscriptions + [sub];
  }

  /** The three ways `connectedCallback` shows the extracted children. */
  method ConnectChildren(e: Element, c: ConvertedChildren) returns (events: seq<Event>, failure: Option<RenderError>)
    modifies e`children, e`subscriptions
    modifies set x | x in e.children && c.ListStream? && c.options.orderOperator.Some? :: x`order
    ensures |e.subscriptions| >= |old(e.subscriptions)| && e.subscriptions[..|old(e.subscriptions)|] == old(e.subscriptions)
    ensures forall k :: |old(e.subscriptions)| <= k < |e.subscriptions| ==> !e.subscriptions[k].closed
    ensures failure == ChildrenError(c)
    ensures failure.Some? ==> c.ChildList? || (c.ReplaceStream? && InitialApplies(c.stream, AnyList))
    ensures c.ChildList? ==> |e.children| >= |old(e.children)| && e.children[..|old(e.children)|] == old(e.children)
    ensures c.ChildList? && failure.None? ==>
              ShowsAll(e.children[|old(e.children)|..], Present(c.items))
              && |e.subscriptions| == |old(e.subscriptions)| + StreamCount(c.items)
    ensures c.ReplaceStream? && failure.None? ==>
              |e.subscriptions| > |old(e.subscriptions)| && fresh(e.subscriptions[|e.subscriptions| - 1])
    ensures c.ListStream? ==> failure.None? && |e.subscriptions| == |old(e.subscriptions)| + 1
    ensures !c.ListStream? ==> NoHookCalls(events)
  {
    match c
    case ChildList(items) =>
      var rendered;
      rendered, events, failure := RenderChildren(e, items);
    case ReplaceStream(s) =>
      ghost var lastShown;
      events, failure, lastShown := ConnectReplaceStream(e, s);
    case ListStream(o) =>
      var passes;
      ghost var cs;
      events, passes, cs := ConnectListStream(e, o);
      failure := None;
  }

  /** The function a lifecycle property (`connectedCallback`, `disconnectedCallback`) of the description holds, if any. */
  function LifecycleHook(vDom: Option<VDom>, key: string): (r: Option<Callback>)
    reads if vDom.Some? then {vDom.value} else {}
    ensures r.Some? ==> vDom.Some? && Get(vDom.value.entries, key) == Some(Function(r.value))
    ensures vDom.Some? && Get(vDom.value.entries, key).Some? && Get(vDom.value.entries, key).value.Function? ==> r.Some?
  {
    if vDom.None? then None
    else match Get(vDom.value.entries, key)
      case Some(Function(cb)) => Some(cb)
      case _ => None
  }

  /**
   * The attribute half of `connectedCallback`: the static attributes are
   * applied in order, then each attribute binding is subscribed and applies
   * its values. `calls` are every `applyAttribute` call, in order, and the
   * element's attribute state is what those calls leave.
   */
  method ConnectAttributes(e: Element, attributes: seq<(string, Prop)>)
    returns (calls: seq<(string, Prop)>, events: seq<Event>, ghost subs: seq<Subscription>)
    modifies e`className, e`style, e`order, e`attributes, e`props, e`subscriptions
    ensures calls == Filter(attributes, IsStaticAttribute) + BoundCalls(attributes)
    ensures events == BoundEffects(e, attributes)
    ensures BoundOf(e) == BindAll(old(BoundOf(e)), calls)
    ensures e.subscriptions == old(e.subscriptions) + subs
    ensures |subs| == |Filter(attributes, IsBoundAttribute)| && forall s | s in subs :: fresh(s) && !s.closed
  {
    var statics := ApplyStaticAttributes(e, attributes);
    var bound;
    bound, events, subs := SubscribeAttributes(e, attributes);
    calls := statics + bound;
    BindAllAppend(old(BoundOf(e)), statics, bound);
  }

  /**
   * The second half of `connectedCallback`: the children are shown, then
   * the description's own `connectedCallback` is called unless rendering
   * threw.
   */
  method ConnectChildrenThenHook(e: Element, c: ConvertedChildren, hook: Option<Callback>, ghost start: nat)
    returns (events: seq<Event>, failure: Option<RenderError>)
    requires start <= |e.subscriptions|
    requires forall k :: start <= k < |e.subscriptions| ==> !e.subscriptions[k].closed
    modifies e`children, e`subscriptions
    modifies set x | x in e.children :: x`order
    ensures |e.subscriptions| >= |old(e.subscriptions)| && e.subscriptions[..|old(e.subscriptions)|] == old(e.subscriptions)
    ensures e.subscriptions[..start] == old(e.subscriptions)[..start]
    ensures forall k :: start <= k < |e.subscriptions| ==> !e.subscriptions[k].closed
    ensures failure == ChildrenError(c)
    ensures failure.Some? ==> c.ChildList? || (c.ReplaceStream? && InitialApplies(c.stream, AnyList))
    ensures c.ChildList? ==> |e.children| >= |old(e.children)| && e.children[..|old(e.children)|] == old(e.children)
    ensures c.ChildList? && failure.None? ==> ShowsAll(e.children[|old(e.children)|..], Present(c.items))
    ensures failure.None? && hook.Some? ==> events != [] && events[|events| - 1] == CallbackCalled(hook.value, e)
    ensures failure.Some? ==> NoHookCalls(events)
  {
    ghost var owned := e.subscriptions;
    events, failure := ConnectChildren(e, c);
    assert e.subscriptions[..|owned|][..start] == owned[..start];
    forall k | start <= k < |e.subscriptions| ensures !e.subscriptions[k].closed {
      if k < |owned| {
        assert e.subscriptions[k] == owned[k];
      }
    }
    if failure.None? && hook.Some? {
      events := events + [CallbackCalled(hook.value, e)];
    }
  }

  /**
   * The body of `connectedCallback` once `extractRxStreams` has given `ext`
   * and the description's own `connectedCallback` is `hook`: the log, the
   * attributes, then the children, and last `hook`. A rendering error of
   * the children propagates and skips `hook`.
   */
  method ConnectExtracted(e: Element, ext: Extracted, hook: Option<Callback>) returns (calls: seq<(string, Prop)>, events: seq<Event>, failure: Option<RenderError>)
    requires e !in e.children
    modifies e`className, e`style, e`order, e`attributes, e`props, e`subscriptions, e`children
    modifies set x | x in e.children :: x`order
    ensures calls == Filter(ext.attributes, IsStaticAttribute) + BoundCalls(ext.attributes)
    ensures BoundOf(e) == BindAll(old(BoundOf(e)), calls)
    ensures |events| >= |ext.log| + |BoundEffects(e, ext.attributes)|
            && events[..|ext.log| + |BoundEffects(e, ext.attributes)|] == ext.log + BoundEffects(e, ext.attributes)
    ensures |e.subscriptions| >= |old(e.subscriptions)| + |Filter(ext.attributes, IsBoundAttribute)|
            && e.subscriptions[..|old(e.subscriptions)|] == old(e.subscriptions)
    ensures forall k :: |old(e.subscriptions)| <= k < |e.subscriptions| ==> !e.subscriptions[k].closed
    ensures ext.children.ChildList? ==> |e.children| >= |old(e.children)| && e.children[..|old(e.children)|] == old(e.children)
    ensures ext.children.ChildList? && failure.None? ==> ShowsAll(e.children[|old(e.children)|..], Present(ext.children.items))
    ensures failure == ChildrenError(ext.children)
    ensures failure.Some? ==> ext.children.ChildList? || (ext.children.ReplaceStream? && InitialApplies(ext.children.stream, AnyList))
    ensures failure.None? && hook.Some? ==> events != [] && events[|events| - 1] == CallbackCalled(hook.value, e)
    ensures NoHookCalls(ext.log) && failure.Some? ==> NoHookCalls(events)
  {
    var effects;
    ghost var subs;
    calls, effects, subs := ConnectAttributes(e, ext.attributes);
    forall k | |old(e.subscriptions)| <= k < |e.subscriptions| ensures !e.subscriptions[k].closed {
      assert e.subscriptions[k] == subs[k - |old(e.subscriptions)|];
    }
    var more;
    more, failure := ConnectChildrenThenHook(e, ext.children, hook, |old(e.subscriptions)|);
    events := ext.log + effects + more;
    BoundEffectsResolved(e, ext.attributes);
    JoinedEvents(ext.log, effects, more);
  }

  /** The log, then the binding effects, then the children's events: each part in its place. */
  lemma JoinedEvents(log: seq<Event>, effects: seq<Event>, more: seq<Event>)
    ensures (log + effects + more)[..|log| + |effects|] == log + effects
    ensures more != [] ==> (log + effects + more)[|log + effects + more| - 1] == more[|more| - 1]
    ensures NoHookCalls(log) && NoHookCalls(effects) && NoHookCalls(more) ==> NoHookCalls(log + effects + more)
  {
    assert (log + effects + more)[..|log| + |effects|] == log + effects;
  }

  /**
   * `connectedCallback` of an element holding a description: its
   * `extractRxStreams` is `ext`, and the rest is `ConnectExtracted` with the
   * description's own `connectedCallback`.
   */
  method ConnectedCallback(e: Element) returns (calls: seq<(string, Prop)>, events: seq<Event>, failure: Option<RenderError>, ext: Extracted)
    requires e.vDom.Some? && e !in e.children
    modifies e`className, e`style, e`order, e`attributes, e`props, e`subscriptions, e`children
    modifies set x | x in e.children :: x`order
    ensures ext == ExtractRxStreams(e.vDom.value.entries)
    ensures calls == Filter(ext.attributes, IsStaticAttribute) + BoundCalls(ext.attributes)
    ensures BoundOf(e) == BindAll(old(BoundOf(e)), calls)
    ensures |events| >= |ext.log| + |BoundEffects(e, ext.attributes)|
            && events[..|ext.log| + |BoundEffects(e, ext.attributes)|] == ext.log + BoundEffects(e, ext.attributes)
    ensures |e.subscriptions| >= |old(e.subscriptions)| + |Filter(ext.attributes, IsBoundAttribute)|
            && e.subscriptions[..|old(e.subscriptions)|] == old(e.subscriptions)
    ensures forall k :: |old(e.subscriptions)| <= k < |e.subscriptions| ==> !e.subscriptions[k].closed
    ensures ext.children.ChildList? ==> |e.children| >= |old(e.children)| && e.children[..|old(e.children)|] == old(e.children)
    ensures ext.children.ChildList? && failure.None? ==> ShowsAll(e.children[|old(e.children)|..], Present(ext.children.items))
    ensures failure == ChildrenError(ext.children)
    ensures failure.Some? ==> ext.children.ChildList? || (ext.children.ReplaceStream? && InitialApplies(ext.children.stream, AnyList))
    ensures failure.None? && LifecycleHook(e.vDom, "connectedCallback").Some? ==>
              events != [] && events[|events| - 1] == CallbackCalled(LifecycleHook(e.vDom, "connectedCallback").value, e)
    ensures failure.Some? ==> NoHookCalls(events)
  {
    ext := ExtractRxStreams(e.vDom.value.entries);
    calls, events, failure := ConnectExtracted(e, ext, LifecycleHook(e.vDom, "connectedCallback"));
  }

  // ---------------------------------------------------------------------
  // The reactive trait: ownership and teardown
  // ---------------------------------------------------------------------

  /** `ownSubscriptions(...subs)`: they are owned after every earlier one. */
  method OwnSubscriptions(e: Element, subs: seq<Subscription>)
    modifies e`subscriptions
    ensures e.subscriptions == old(e.subscriptions) + subs
  {
    e.subscriptions := e.subscriptions + subs;
  }

  /** `hookOnDisconnected(...callbacks)`: they are registered after every earlier one. */
  method HookOnDisconnected(e: Element, callbacks: seq<Callback>)
    modifies e`disconnectionHooks
    ensures e.disconnectionHooks == old(e.disconnectionHooks) + callbacks
  {
    e.disconnectionHooks := e.disconnectionHooks + callbacks;
  }

  function Unsubscriptions(subs: seq<Subscription>): (r: seq<Event>)
    ensures |r| == |subs| && forall i | 0 <= i < |subs| :: r[i] == Unsubscribed(subs[i])
  {
    seq(|subs|, i requires 0 <= i < |subs| => Unsubscribed(subs[i]))
  }

  function HookCalls(hooks: seq<Callback>): (r: seq<Event>)
    ensures |r| == |hooks| && forall i | 0 <= i < |hooks| :: r[i] == HookCalled(hooks[i])
  {
    seq(|hooks|, i requires 0 <= i < |hooks| => HookCalled(hooks[i]))
  }

  lemma UnsubscriptionsAppend(a: seq<Subscription>, b: seq<Subscription>)
    ensures Unsubscriptions(a + b) == Unsubscriptions(a) + Unsubscriptions(b)
  {
    assert forall i | 0 <= i < |a + b| :: Unsubscriptions(a + b)[i] == (Unsubscriptions(a) + Unsubscriptions(b))[i];
  }

  lemma HookCallsAppend(a: seq<Callback>, b: seq<Callback>)
    ensures HookCalls(a + b) == HookCalls(a) + HookCalls(b)
  {
    assert forall i | 0 <= i < |a + b| :: HookCalls(a + b)[i] == (HookCalls(a) + HookCalls(b))[i];
  }

  /**
   * What one disconnection does, given the owned subscriptions and the
   * registered hooks in the order they were added: every subscription is
   * unsubscribed, the last owned first; then every hook is called, the last
   * registered first; then the description's `disconnectedCallback`.
   */
  function Teardown(e: Element, subs: seq<Subscription>, hooks: seq<Callback>, callback: Option<Callback>): seq<Event> {
    Unsubscriptions(Reverse(subs)) + HookCalls(Reverse(hooks))
      + (if callback.Some? then [CallbackCalled(callback.value, e)] else [])
  }

  /** Calls every hook of `hooks` in order. */
  method CallHooks(hooks: seq<Callback>) returns (events: seq<Event>)
    ensures events == HookCalls(hooks)
  {
    events := [];
    var i := 0;
    while i < |hooks|
      invariant i <= |hooks| && events == HookCalls(hooks[..i])
    {
      events := events + [HookCalled(hooks[i])];
      i := i + 1;
    }
  }

  /** Unsubscribes every subscription of `subs` in order. */
  method UnsubscribeAll(subs: seq<Subscription>) returns (events: seq<Event>)
    modifies set s | s in subs
    ensures events == Unsubscriptions(subs)
    ensures forall s | s in subs :: s.closed
  {
    events := [];
    var i := 0;
    while i < |subs|
      invariant i <= |subs| && events == Unsubscriptions(subs[..i])
      invariant forall k | 0 <= k < i :: subs[k].closed
    {
      subs[i].Unsubscribe();
      events := events + [Unsubscribed(subs[i])];
      i := i + 1;
    }
    forall s | s in subs ensures s.closed {
      var k :| 0 <= k < |subs| && subs[k] == s;
    }
  }

  /**
   * `disconnectedCallback` as written: `reverse()` turns both lists around
   * in place before walking them, so they stay reversed afterwards.
   */
  method DisconnectedCallbackAsWritten(e: Element) returns (events: seq<Event>)
    modifies e`subscriptions, e`disconnectionHooks, set s | s in e.subscriptions
    ensures events == Teardown(e, old(e.subscriptions), old(e.disconnectionHooks), LifecycleHook(e.vDom, "disconnectedCallback"))
    ensures e.subscriptions == Reverse(old(e.subscriptions)) && e.disconnectionHooks == Reverse(old(e.disconnectionHooks))
    ensures forall s | s in old(e.subscriptions) :: s.closed
  {
    var subs, hooks := Reverse(e.subscriptions), Reverse(e.disconnectionHooks);
    var callback := LifecycleHook(e.vDom, "disconnectedCallback");
    forall s | s in e.subscriptions ensures s in subs {
      var k :| 0 <= k < |e.subscriptions| && e.subscriptions[k] == s;
      assert subs[|subs| - 1 - k] == s;
    }
    e.subscriptions, e.disconnectionHooks := subs, hooks;
    var unsubscribed := UnsubscribeAll(subs);
    var called := CallHooks(hooks);
    events := unsubscribed + called + (if callback.Some? then [CallbackCalled(callback.value, e)] else []);
  }

  /**
   * `disconnectedCallback` walking reversed copies: the same teardown, and
   * both lists keep the order they were added in.
   */
  method DisconnectedCallback(e: Element) returns (events: seq<Event>)
    modifies set s | s in e.subscriptions
    ensures events == Teardown(e, e.subscriptions, e.disconnectionHooks, LifecycleHook(e.vDom, "disconnectedCallback"))
    ensures forall s | s in e.subscriptions :: s.closed
  {
    var unsubscribed := UnsubscribeAll(Reverse(e.subscriptions));
    forall s | s in e.subscriptions ensures s in Reverse(e.subscriptions) {
      var k :| 0 <= k < |e.subscriptions| && e.subscriptions[k] == s;
      assert Reverse(e.subscriptions)[|e.subscriptions| - 1 - k] == s;
    }
    var called := CallHooks(Reverse(e.disconnectionHooks));
    var callback := LifecycleHook(e.vDom, "disconnectedCallback");
    events := unsubscribed + called + (if callback.Some? then [CallbackCalled(callback.value, e)] else []);
  }

  /**
   * Last in, first out: what is owned or registered later is torn down
   * first, whatever was there before.
   */
  lemma TeardownIsLastInFirstOut(e: Element, subs: seq<Subscription>, moreSubs: seq<Subscription>,
                                 hooks: seq<Callback>, moreHooks: seq<Callback>, callback: Option<Callback>)
    ensures Teardown(e, subs + moreSubs, hooks + moreHooks, callback)
            == Unsubscriptions(Reverse(moreSubs)) + Unsubscriptions(Reverse(subs))
               + HookCalls(Reverse(moreHooks)) + HookCalls(Reverse(hooks))
               + (if callback.Some? then [CallbackCalled(callback.value, e)] else [])
  {
    ReverseAppend(subs, moreSubs);
    ReverseAppend(hooks, moreHooks);
    UnsubscriptionsAppend(Reverse(moreSubs), Reverse(subs));
    HookCallsAppend(Reverse(moreHooks), Reverse(hooks));
  }

  /**
   * As written, after one disconnection the hooks registered before it are
   * called in registration order (first in, first out) by the next one,
   * after any hooks registered since.
   */
  lemma SecondTeardownAsWrittenIsFirstInFirstOut(hooks: seq<Callback>, added: seq<Callback>)
    ensures HookCalls(Reverse(Reverse(hooks) + added)) == HookCalls(Reverse(added)) + HookCalls(hooks)
  {
    ReverseAppend(Reverse(hooks), added);
    ReverseInvolutive(hooks);
    HookCallsAppend(Reverse(added), hooks);
  }

  /** Two hooks, two disconnections as written: the second calls them in registration order. */
  method RepeatedTeardownAsWritten(e: Element) returns (first: seq<Event>, second: seq<Event>)
    requires e.subscriptions == [] && e.disconnectionHooks == [Callback(1), Callback(2)]
    requires LifecycleHook(e.vDom, "disconnectedCallback").None?
    modifies e`subscriptions, e`disconnectionHooks
    ensures first == [HookCalled(Callback(2)), HookCalled(Callback(1))]
    ensures second == [HookCalled(Callback(1)), HookCalled(Callback(2))]
  {
    first := DisconnectedCallbackAsWritten(e);
    assert Reverse(e.disconnectionHooks) == [Callback(1), Callback(2)];
    second := DisconnectedCallbackAsWritten(e);
  }

  /** Two hooks, two disconnections walking copies: both call them last in, first out. */
  method RepeatedTeardown(e: Element) returns (first: seq<Event>, second: seq<Event>)
    requires e.subscriptions == [] && e.disconnectionHooks == [Callback(1), Callback(2)]
    requires LifecycleHook(e.vDom, "disconnectedCallback").None?
    ensures first == second == [HookCalled(Callback(2)), HookCalled(Callback(1))]
  {
    first := DisconnectedCallback(e);
    second := DisconnectedCallback(e);
  }
}
