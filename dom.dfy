/**
 * The values the library works on: JavaScript data, virtual-DOM descriptions,
 * the live element a description is rendered into, subscriptions, the refs a
 * list reconciler tracks, and the observable effects (callbacks invoked,
 * console errors) that the other modules report.
 *
 * The live element carries both the host-tree state (ordered children, class
 * name, style, attributes, properties) and the state the reactive trait adds
 * to every rendered element (its description, owned subscriptions and
 * disconnection hooks).
 */
module Dom {
  import opened Wrappers
  import opened Lists

  /**
   * A JavaScript value as the library sees it. Objects that are only ever
   * compared or handed to user code are known by their identity (`Object`).
   * `Dict` is a plain object literal (the value of a `style` or
   * `customAttributes` attribute), entries in insertion order. `==` on `Data`
   * stands for JavaScript's `===` on primitives and on `Object`; it compares
   * two `Dict`s by their entries, where `===` would compare two literals by
   * identity, and numbers are integers, so NaN and -0 do not arise.
   */
  datatype Data =
    | Undefined
    | Null
    | Bool(b: bool)
    | Num(n: int)
    | Str(s: string)
    | Dict(entries: seq<(string, Data)>)
    | Object(id: nat)

  /** JavaScript truthiness (numbers are integers here, so NaN does not arise). */
  predicate Truthy(d: Data) {
    match d
    case Undefined => false
    case Null => false
    case Bool(b) => b
    case Num(n) => n != 0
    case Str(s) => s != ""
    case Dict(_) => true
    case Object(_) => true
  }

  /** A user-supplied callback, known by its identity. */
  datatype Callback = Callback(id: nat)

  /**
   * An `RxStream`: a source, a mapping from domain data to `T`, and the
   * optional `untilFirst`, `wrapper` and `sideEffects`. Its fields are
   * read-only, so it is a value. The source is the finite sequence of its
   * emissions; `sideEffects` records whether a side-effect callback is set.
   */
  datatype RxStream<!T> = RxStream(
    source: seq<Data>,
    vDomMap: Data -> T,
    untilFirst: Option<T>,
    wrapper: Option<T -> T>,
    sideEffects: bool)

  /** The two list policies that track their children. */
  datatype ListPolicy =
    | Append
    | Sync(comparisonOperator: (Data, Data) -> bool)

  /** The options of an `RxStreamAppend` or `RxStreamSync`. */
  datatype ListOptions = ListOptions(
    policy: ListPolicy,
    source: seq<seq<Data>>,
    vDomMap: Data -> VDom,
    sideEffects: bool,
    orderOperator: Option<(Data, Data) -> int>)

  /** The `policy` of an `RxChildren` literal, with the fields that policy reads. */
  datatype ChildrenPolicy =
    | ReplacePolicy(replace: RxStream<seq<RenderableChild>>)
    | AppendPolicy(
        source: seq<seq<Data>>, vdomMap: Data -> VDom,
        sideEffects: bool, orderOperator: Option<(Data, Data) -> int>)
    | SyncPolicy(
        source: seq<seq<Data>>, vdomMap: Data -> VDom,
        sideEffects: bool, orderOperator: Option<(Data, Data) -> int>,
        comparisonOperator: Option<(Data, Data) -> bool>)
    | UnknownPolicy(name: string)

  /** What `renderChildren` accepts: nothing, a description, an element, or an `RxStream` instance. */
  datatype RenderableChild =
    | NoChild
    | DescriptionChild(vDom: VDom)
    | ElementChild(element: Element)
    | StreamChild(stream: RxStream<Option<VDom>>)

  /** An item of a `children` array: renderable as is, or an `RxChild` literal `{source$, vdomMap, ...}`. */
  datatype ChildLike =
    | Renderable(child: RenderableChild)
    | RxChild(binding: RxStream<Option<VDom>>)

  /**
   * The value of one property of a description. Attribute keys hold the
   * first four kinds (or any kind, read as a static value); the `children`
   * key holds the next four; the two lifecycle keys hold a `Function`.
   */
  datatype Prop =
    | Static(value: Data)
    | Observable(emissions: seq<Data>)
    | AttrStream(stream: RxStream<Data>)
    | RxAttribute(attribute: RxStream<Data>)
    | ChildArray(items: seq<ChildLike>)
    | ChildrenRxStream(children: RxStream<seq<RenderableChild>>)
    | ChildrenStreamInstance(options: ListOptions)
    | RxChildren(policy: ChildrenPolicy)
    | Function(callback: Callback)

  /** Truthiness of a property value: only static values can be falsy. */
  predicate PropTruthy(p: Prop) {
    !p.Static? || Truthy(p.value)
  }

  /**
   * A virtual-DOM description: a read-only object whose own properties, in
   * `Object.entries` order, are `entries`.
   */
  class VDom {
    const entries: seq<(string, Prop)>

    constructor (entries: seq<(string, Prop)>)
      ensures this.entries == entries
    {
      this.entries := entries;
    }
  }

  /** The value of property `key` (the first entry with that key), or `None` when absent. */
  function Get(entries: seq<(string, Prop)>, key: string): (r: Option<Prop>)
    ensures r.None? <==> forall i | 0 <= i < |entries| :: entries[i].0 != key
    ensures r.Some? ==> exists i | 0 <= i < |entries| :: entries[i] == (key, r.value)
  {
    if |entries| == 0 then None
    else if entries[0].0 == key then Some(entries[0].1)
    else Get(entries[1..], key)
  }

  /** A subscription; `Unsubscribe` closes it. */
  class Subscription {
    var closed: bool

    constructor ()
      ensures !closed
    {
      closed := false;
    }

    method Unsubscribe()
      modifies this
      ensures closed
    {
      closed := true;
    }
  }

  /**
   * A live element. `tag` and `isName` are fixed at creation (`isName` is the
   * customised built-in name, "" for none). The inline style is `style`,
   * except its `order` property, which is `order` ("" until set). The
   * reactive-trait state is `vDom`, `subscriptions` and `disconnectionHooks`.
   */
  class Element {
    const tag: string
    const isName: string
    var children: seq<Element>
    var className: Prop
    var style: map<string, Data>
    var order: Data
    var attributes: map<string, Data>
    var props: map<string, Prop>
    var vDom: Option<VDom>
    var subscriptions: seq<Subscription>
    var disconnectionHooks: seq<Callback>

    constructor (tag: string, isName: string)
      ensures this.tag == tag && this.isName == isName
      ensures children == [] && className == Static(Str(""))
      ensures style == map[] && order == Str("") && attributes == map[] && props == map[]
      ensures vDom == None && subscriptions == [] && disconnectionHooks == []
      ensures Blank()
    {
      this.tag := tag;
      this.isName := isName;
      children := [];
      className := Static(Str(""));
      style := map[];
      order := Str("");
      attributes := map[];
      props := map[];
      vDom := None;
      subscriptions := [];
      disconnectionHooks := [];
    }

    /** Nothing set yet: the state `document.createElement` leaves. */
    predicate Blank()
      reads this
    {
      children == [] && className == Static(Str("")) && style == map[] && order == Str("") && attributes == map[]
      && props == map[] && vDom == None && subscriptions == [] && disconnectionHooks == []
    }

    /** `initializeVirtualDom`: only the description is stored. */
    method InitializeVirtualDom(v: VDom)
      modifies this`vDom
      ensures vDom == Some(v)
    {
      vDom := Some(v);
    }

    /** `appendChild`: the child goes last. Moving a child out of another parent is not modelled. */
    method AppendChild(child: Element)
      modifies this`children
      ensures children == old(children) + [child]
    {
      children := children + [child];
    }

    /** `child.remove()` for a child of this element. */
    method RemoveChild(child: Element)
      modifies this`children
      ensures children == Without(old(children), child)
    {
      children := Without(children, child);
    }

    /** `occupant.replaceWith(replacement)` for a child of this element; nothing happens when `occupant` is not a child. */
    method ReplaceChild(occupant: Element, replacement: Element)
      modifies this`children
      ensures children == Replaced(old(children), occupant, replacement)
    {
      children := Replaced(children, occupant, replacement);
    }

    /** `replaceChildren()` with no argument: every child is removed. */
    method ReplaceChildren()
      modifies this`children
      ensures children == []
    {
      children := [];
    }
  }

  /** `s` without any occurrence of `x`, the rest in order. */
  function Without(s: seq<Element>, x: Element): (r: seq<Element>)
    ensures x !in r
    ensures forall i | 0 <= i < |r| :: r[i] in s
    ensures forall i | 0 <= i < |s| && s[i] != x :: s[i] in r
    ensures x !in s ==> r == s
    ensures |r| <= |s|
  {
    if |s| == 0 then []
    else if s[0] == x then Without(s[1..], x)
    else [s[0]] + Without(s[1..], x)
  }

  /** `s` with every occurrence of `x` replaced by `y`. */
  function Replaced(s: seq<Element>, x: Element, y: Element): (r: seq<Element>)
    ensures |r| == |s|
    ensures forall i | 0 <= i < |s| :: r[i] == if s[i] == x then y else s[i]
  {
    seq(|s|, i requires 0 <= i < |s| => if s[i] == x then y else s[i])
  }

  /** A `ResolvedHTMLElement` tracked by a list reconciler; compared by reference like the JavaScript object. */
  class Ref {
    const domainData: Data
    const virtualDOM: VDom
    const element: Element

    constructor (domainData: Data, virtualDOM: VDom, element: Element)
      ensures this.domainData == domainData && this.virtualDOM == virtualDOM
      ensures this.element == element
    {
      this.domainData := domainData;
      this.virtualDOM := virtualDOM;
      this.element := element;
    }
  }

  /** The elements of a sequence of refs, in order. */
  function Elements(refs: seq<Ref>): (r: seq<Element>)
    ensures |r| == |refs|
    ensures forall i | 0 <= i < |refs| :: r[i] == refs[i].element
  {
    seq(|refs|, i requires 0 <= i < |refs| => refs[i].element)
  }

  /** The domain data of a sequence of refs, in order (`refs.map(ref => ref.domainData)`). */
  function DomainDataOf(refs: seq<Ref>): (r: seq<Data>)
    ensures |r| == |refs|
    ensures forall i | 0 <= i < |refs| :: r[i] == refs[i].domainData
  {
    seq(|refs|, i requires 0 <= i < |refs| => refs[i].domainData)
  }

  /** The report a list reconciler hands to its side-effect callback. */
  datatype RenderingUpdate = RenderingUpdate(added: seq<Ref>, updated: seq<Ref>, removed: seq<Ref>)

  /** The errors the rendering path throws: `factory`'s (and so `render`'s), and the placeholder's `TypeError`. */
  datatype RenderError =
    | NotRegistered(tag: string)   // "The element {tag} is not registered in flux-view's factory"
    | NonStringTag                 // a truthy `tag` that is not a string matches no registry entry
    | ReplaceOnUndefined           // TypeError: `replaceWith` read from an undefined current element

  /** What the library writes to the console with `console.error`. */
  datatype Diagnostic =
    | UndefinedVirtualDom       // "Got an undefined virtual DOM, return empty div"
    | UnknownChildrenType       // "Type of children unknown"
    | UnknownChildrenPolicy     // "Unknown RxChildren policy"
    | ReorderNeedsFlexOrGrid    // "To enable dynamic re-ordering of elements ... 'flex' or 'grid'."

  /** The observable effects of the lifecycle, in the order they happen. */
  datatype Event =
    | Resolved(resolved: Element?, domainData: Data)       // a binding's sideEffects({element, domainData})
    | Updated(parent: Element, update: RenderingUpdate)   // a list policy's sideEffects(parent, update)
    | Logged(diagnostic: Diagnostic)                     // console.error
    | Reported(error: RenderError)                       // an exception RxJS reports for a subscriber
    | Unsubscribed(subscription: Subscription)
    | HookCalled(hook: Callback)                         // a hook registered with hookOnDisconnected
    | CallbackCalled(callback: Callback, target: Element)   // vDom.connectedCallback / disconnectedCallback
}
