/**
 * The element factory: the registry of supported tags, the prefix of the
 * customised built-in names registered for them, and `factory`, which
 * creates a reactive element for a registered tag and throws for any other.
 */
module ElementFactory {
  import opened Wrappers
  import opened Dom

  /** The package name and API version of the generated setup. */
  const PackageName: string := "@youwol/rx-vdom"
  const ApiVersion: string := "1"

  /** `s.split(sep)`: the pieces between the separators; there is always at least one. */
  function Split(s: string, sep: char): (r: seq<string>)
    ensures |r| >= 1
    ensures forall i | 0 <= i < |r| :: sep !in r[i]
    ensures Join(r, sep) == s
  {
    if |s| == 0 then [""]
    else
      var rest := Split(s[1..], sep);
      if s[0] == sep then
        assert Join([""] + rest, sep) == [sep] + Join(rest, sep) by {
          assert ([""] + rest)[1..] == rest;
        }
        [""] + rest
      else
        var r := [[s[0]] + rest[0]] + rest[1..];
        assert Join(r, sep) == [s[0]] + Join(rest, sep) by {
          if |rest| > 1 {
            assert r[1..] == rest[1..];
          }
        }
        r
  }

  /** `parts.join(sep)`. */
  function Join(parts: seq<string>, sep: char): string {
    if |parts| == 0 then ""
    else if |parts| == 1 then parts[0]
    else parts[0] + [sep] + Join(parts[1..], sep)
  }

  /** A string without the separator splits into itself alone. */
  lemma {:induction false} SplitWithoutSeparator(s: string, sep: char)
    requires sep !in s
    ensures Split(s, sep) == [s]
  {
    if |s| > 0 {
      SplitWithoutSeparator(s[1..], sep);
      assert [s[0]] + s[1..] == s;
    }
  }

  /** The first piece ends at the first separator; the rest is split on its own. */
  lemma {:induction false} SplitAtFirst(a: string, b: string, sep: char)
    requires sep !in a
    ensures Split(a + [sep] + b, sep) == [a] + Split(b, sep)
  {
    var s := a + [sep] + b;
    if |a| == 0 {
      assert s == [sep] + b;
      assert s[1..] == b;
    } else {
      assert s[1..] == a[1..] + [sep] + b;
      SplitAtFirst(a[1..], b, sep);
      assert [a[0]] + a[1..] == a;
    }
  }

  /**
   * `customElementPrefix` for a package name and API version: the piece of
   * the name after the first '/', a dash, and the version. A name without
   * '/' has no such piece and JavaScript prints it as "undefined".
   */
  function PrefixFor(name: string, version: string): string {
    var parts := Split(name, '/');
    (if |parts| > 1 then parts[1] else "undefined") + "-" + version
  }

  /** For a scoped name `@scope/pkg` the prefix is `pkg-version`. */
  lemma PrefixOfScopedName(scope: string, pkg: string, version: string)
    requires '/' !in scope && '/' !in pkg
    ensures PrefixFor(scope + "/" + pkg, version) == pkg + "-" + version
  {
    SplitAtFirst(scope, pkg, '/');
    SplitWithoutSeparator(pkg, '/');
    assert scope + "/" + pkg == scope + ['/'] + pkg;
  }

  /**
   * The prefix of every customised built-in name of this package, as the
   * template literal computes it from the generated setup (see
   * `CustomElementPrefixDerivation`).
   */
  const CustomElementPrefix: string := "rx-vdom-1"

  /** The constant is the name's piece after '/', a dash and the API version. */
  lemma CustomElementPrefixDerivation()
    ensures PrefixFor(PackageName, ApiVersion) == CustomElementPrefix
  {
    PrefixOfPackage(PackageName, ApiVersion);
  }

  lemma PrefixOfPackage(name: string, version: string)
    requires name == "@youwol/rx-vdom"
    ensures PrefixFor(name, version) == "rx-vdom-" + version
  {
    PrefixOfScopedName("@youwol", "rx-vdom", version);
    assert name == "@youwol" + "/" + "rx-vdom";
  }

  /** The tags of the registry literal ("form" is commented out there). */
  predicate BaseTag(tag: string) {
    tag in {
    "a", "abbr", "address", "area", "article", "aside", "audio", "b", "base", "bdi",
    "bdo", "blockquote", "body", "br", "button", "canvas", "caption", "cite", "code",
    "col", "colgroup", "data", "datalist", "dd", "del", "details", "dfn", "div", "dl",
    "dt", "em", "embed", "fieldset", "figcaption", "figure", "footer", "h1", "h2",
    "h3", "h4", "h5", "h6", "head", "header", "hgroup", "hr", "html", "i", "iframe",
    "img", "input", "ins", "kbd", "label", "legend", "li", "link", "main", "map",
    "mark", "menu", "meta", "meter", "nav", "noscript", "object", "ol", "optgroup",
    "option", "output", "p", "picture", "pre", "progress", "q", "rp", "rt", "ruby",
    "s", "samp", "script", "section", "select", "slot", "small", "source", "span",
    "strong", "style", "sub", "summary", "sup", "table", "tbody", "td", "template",
    "textarea", "tfoot", "th", "thead", "time", "title", "tr", "track", "u", "ul",
    "var", "video", "wbr"
    }
  }

  /** The registry once the module has run: "dialog" is added when the host defines `HTMLDialogElement`. */
  predicate RegisteredFor(hasDialog: bool, tag: string) {
    BaseTag(tag) || (hasDialog && tag == "dialog")
  }

  /** "dialog" is registered exactly when the host has it, "form" never, every other tag as listed. */
  lemma RegistryContents(hasDialog: bool)
    ensures RegisteredFor(hasDialog, "dialog") <==> hasDialog
    ensures !RegisteredFor(hasDialog, "form")
    ensures forall tag | tag != "dialog" :: RegisteredFor(hasDialog, tag) <==> BaseTag(tag)
  {
  }

  /** The registry on a host with `HTMLDialogElement` (every current browser and jsdom). */
  predicate Registered(tag: string) {
    RegisteredFor(true, tag)
  }

  /** The customised built-in name `factory` passes as `is` for a tag. */
  function IsName(tag: string): string {
    CustomElementPrefix + "-" + tag
  }

  /** The tag a customised built-in name was made for, when it carries the prefix. */
  function TagOfIsName(name: string): (r: Option<string>)
    ensures r.Some? ==> IsName(r.value) == name
  {
    var n := |CustomElementPrefix| + 1;
    if |name| >= n && name[..n] == CustomElementPrefix + "-" then
      assert name == name[..n] + name[n..];
      Some(name[n..])
    else None
  }

  /**
   * The registry test of `factory`, corrected to own entries: the `is`
   * name for a registered tag, `NotRegistered` for every other one.
   */
  function Lookup(tag: string): (r: Result<string, RenderError>)
    ensures r.Success? <==> Registered(tag)
    ensures r.Failure? ==> r.error == NotRegistered(tag)
    ensures r.Success? ==> TagOfIsName(r.value) == Some(tag)
  {
    if Registered(tag) then
      assert (IsName(tag))[..|CustomElementPrefix| + 1] == CustomElementPrefix + "-";
      Success(IsName(tag))
    else Failure(NotRegistered(tag))
  }

  /** The keys every object literal inherits from `Object.prototype`; looking one up gives a truthy value. */
  const ObjectPrototypeKeys: set<string> := {
    "constructor", "hasOwnProperty", "isPrototypeOf", "propertyIsEnumerable",
    "toLocaleString", "toString", "valueOf", "__proto__",
    "__defineGetter__", "__defineSetter__", "__lookupGetter__", "__lookupSetter__"
  }

  /**
   * The registry test as written: `!CustomElementsMap[tag]` also reads the
   * keys inherited from `Object.prototype`, which are truthy.
   */
  function LookupAsWritten(tag: string): (r: Result<string, RenderError>)
    ensures r.Success? <==> Registered(tag) || tag in ObjectPrototypeKeys
    ensures r.Success? ==> r.value == IsName(tag)
  {
    if Registered(tag) || tag in ObjectPrototypeKeys then Success(IsName(tag))
    else Failure(NotRegistered(tag))
  }

  /** "constructor" is no registered tag, yet the written test lets it through. */
  lemma InheritedKeyPassesRegistryTest()
    ensures !Registered("constructor")
    ensures LookupAsWritten("constructor") == Success(IsName("constructor"))
    ensures Lookup("constructor") == Failure(NotRegistered("constructor"))
  {
  }

  /** The two tests agree on every tag that is not an inherited key. */
  lemma LookupAgreesOffPrototype(tag: string)
    requires tag !in ObjectPrototypeKeys
    ensures LookupAsWritten(tag) == Lookup(tag)
  {
  }

  /**
   * `factory(tag)`: a new element of that tag whose `is` name is the
   * prefixed tag, with nothing set on it; `NotRegistered` for an
   * unregistered tag.
   */
  method Factory(tag: string) returns (r: Result<Element, RenderError>)
    ensures r.Success? <==> Registered(tag)
    ensures r.Failure? ==> r == Failure(NotRegistered(tag))
    ensures r.Success? ==>
              fresh(r.value) && r.value.tag == tag
              && Lookup(tag) == Success(r.value.isName) && r.value.Blank()
  {
    var name := Lookup(tag);
    if name.Failure? {
      return Failure(name.error);
    }
    var e := new Element(tag, name.value);
    return Success(e);
  }
}
