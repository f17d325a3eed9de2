/**
 * `render`: from a description to a new element of its tag. Only the
 * description is stored; attributes, children and subscriptions wait until
 * the element is connected.
 */
module VirtualDom {
  import opened Wrappers
  import opened Dom
  import opened ElementFactory

  /**
   * The tag `render` asks the factory for: the `tag` property when it is a
   * non-empty string, "div" when it is absent or falsy. Any other truthy
   * value names no registry entry, so the factory rejects it.
   */
  function TagOf(vDom: VDom): (r: Result<string, RenderError>)
    ensures r.Success? ==> r.value != ""
    ensures (Get(vDom.entries, "tag").None? || !PropTruthy(Get(vDom.entries, "tag").value))
            ==> r == Success("div")
    ensures r.Success? && r.value != "div" ==> Get(vDom.entries, "tag") == Some(Static(Str(r.value)))
  {
    match Get(vDom.entries, "tag")
    case None => Success("div")
    case Some(p) =>
      if !PropTruthy(p) then Success("div")
      else if p.Static? && p.value.Str? then Success(p.value.s)
      else Failure(NonStringTag)
  }

  /** The tag of the element `render` creates for a description, or the error it throws. */
  function RenderedTag(vDom: VDom): (r: Result<string, RenderError>)
    ensures r.Success? ==> Registered(r.value)
    ensures r.Success? <==> TagOf(vDom).Success? && Registered(TagOf(vDom).value)
    ensures TagOf(vDom).Success? && !Registered(TagOf(vDom).value)
            ==> r == Failure(NotRegistered(TagOf(vDom).value))
  {
    var tag := TagOf(vDom);
    if tag.Failure? then Failure(tag.error)
    else
      var name := Lookup(tag.value);
      if name.Failure? then Failure(name.error) else Success(tag.value)
  }

  /** A description without a tag renders a `div`; one whose tag is "form" is rejected. */
  lemma DefaultAndUnregisteredTags(vDom: VDom)
    ensures Get(vDom.entries, "tag").None? ==> RenderedTag(vDom) == Success("div")
    ensures Get(vDom.entries, "tag") == Some(Static(Str("form")))
            ==> RenderedTag(vDom) == Failure(NotRegistered("form"))
  {
    RegistryContents(true);
  }

  /**
   * `render(vDom)`. An absent description is logged and gives no element.
   * Otherwise the factory's element for the description's tag, holding the
   * description and nothing else; the factory's error when it throws.
   */
  method Render(vDom: Option<VDom>) returns (r: Result<Element?, RenderError>, log: seq<Event>)
    ensures vDom.None? ==> r == Success(null) && log == [Logged(UndefinedVirtualDom)]
    ensures vDom.Some? ==> log == [] && (r.Success? <==> RenderedTag(vDom.value).Success?)
    ensures vDom.Some? && r.Failure? ==> r.error == RenderedTag(vDom.value).error
    ensures vDom.Some? && r.Success? ==> r.value != null && Rendered(r.value, vDom.value) && fresh(r.value)
  {
    if vDom.None? {
      return Success(null), [Logged(UndefinedVirtualDom)];
    }
    var tag := TagOf(vDom.value);
    if tag.Failure? {
      return Failure(tag.error), [];
    }
    var e := Factory(tag.value);
    if e.Failure? {
      return Failure(e.error), [];
    }
    e.value.InitializeVirtualDom(vDom.value);
    return Success(e.value), [];
  }

  /** `e` is what `render` makes of `v`: the right tag and `is` name, the description stored, nothing wired. */
  predicate Rendered(e: Element, v: VDom)
    reads e
  {
    RenderedTag(v) == Success(e.tag) && Lookup(e.tag) == Success(e.isName)
    && e.vDom == Some(v) && e.children == [] && e.className == Static(Str(""))
    && e.style == map[] && e.order == Str("") && e.attributes == map[] && e.props == map[]
    && e.subscriptions == [] && e.disconnectionHooks == []
  }
}
