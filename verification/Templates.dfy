/** Template trees, and the tests on names that parser and renderer share: void and known HTML tags, components,
    directives, which attributes are rendered under which name, and the escaping of attribute values. */
module Templates {
  import opened Letters

  datatype Attribute = Attribute(name: string, value: string, dynamic: bool, event: bool, directive: bool, boolean: bool)

  /** `fragment` is the precomputed HTML of a static element, empty when there is none. */
  datatype Node =
    | Text(text: string)
    | Interpolation(expression: string)
    | Comment(comment: string)
    | Element(tag: string, isComponent: bool, selfClosing: bool, attrs: seq<Attribute>, children: seq<Node>,
              scopeAttrs: seq<string>, fragment: string)

  predicate HasPrefix(s: string, p: string) {
    p <= s
  }

  predicate HasSuffix(s: string, p: string) {
    |p| <= |s| && s[|s| - |p|..] == p
  }

  predicate IsVoidHTMLTag(tag: string) {
    Lower(tag) in {
      "area", "base", "br", "col", "embed", "hr", "img", "input", "link", "meta", "param", "source", "track", "wbr"
    }
  }

  predicate IsKnownHTMLTag(tag: string) {
    Lower(tag) in {
      "html", "head", "body", "title", "base", "link", "meta", "style",
      "article", "section", "nav", "aside", "h1", "h2", "h3", "h4", "h5", "h6",
      "header", "footer", "address", "main", "p", "hr", "pre", "blockquote", "ol", "ul", "menu", "li",
      "dl", "dt", "dd", "figure", "figcaption", "div", "a", "em", "strong", "small", "s", "cite", "q",
      "dfn", "abbr", "ruby", "rt", "rp", "data", "time", "code", "var", "samp", "kbd", "sub", "sup",
      "i", "b", "u", "mark", "bdi", "bdo", "span", "br", "wbr", "ins", "del", "picture", "source",
      "img", "iframe", "embed", "object", "video", "audio", "track", "map", "table", "caption", "colgroup",
      "col", "tbody", "thead", "tfoot", "tr", "td", "th", "form", "label", "input", "button", "select",
      "datalist", "optgroup", "option", "textarea", "output", "progress", "meter", "fieldset", "legend",
      "details", "summary", "dialog", "slot", "template", "canvas", "noscript"
    }
  }

  predicate IsComponentTag(tag: string) {
    tag != "" && (IsUpper(tag[0]) || ('-' in tag && !IsKnownHTMLTag(tag)))
  }

  predicate IsStructuralDirective(name: string) {
    name == "m-if" || name == "m-else" || name == "m-else-if" || name == "m-for"
  }

  predicate IsDynamicName(name: string) {
    HasPrefix(name, ":") || HasPrefix(name, "v-bind:")
  }

  predicate IsEventName(name: string) {
    HasPrefix(name, "@") || HasPrefix(name, "v-on:")
  }

  predicate IsDirectiveName(name: string) {
    HasPrefix(name, ":") || HasPrefix(name, "@") || HasPrefix(name, "#") || HasPrefix(name, "v-")
  }

  predicate ShouldSkip(attr: Attribute) {
    || attr.event
    || IsStructuralDirective(attr.name)
    || HasPrefix(attr.name, "#")
    || (HasPrefix(attr.name, "v-") && !HasPrefix(attr.name, "v-bind:"))
  }

  function RenderedName(name: string): string {
    if HasPrefix(name, ":") then name[1..]
    else if HasPrefix(name, "v-bind:") then name[|"v-bind:"|..]
    else if IsEventName(name) then ""
    else name
  }

  predicate IsSlot(e: Node) {
    e.Element? && EqualFold(e.tag, "slot")
  }

  predicate IsClientOnly(e: Node) {
    e.Element? && EqualFold(e.tag, "clientonly")
  }

  function EscapeChar(c: char): string {
    if c == '&' then "&amp;" else if c == '\'' then "&#39;" else if c == '<' then "&lt;"
    else if c == '>' then "&gt;" else if c == '"' then "&#34;" else [c]
  }

  function EscapeString(s: string): string {
    if s == "" then "" else EscapeChar(s[0]) + EscapeString(s[1..])
  }

  predicate NeedsNoEscape(s: string) {
    forall i :: 0 <= i < |s| ==> s[i] !in {'&', '\'', '<', '>', '"'}
  }

  lemma {:induction false} EscapeNothing(s: string)
    requires NeedsNoEscape(s)
    ensures EscapeString(s) == s
  {
    if s != "" {
      EscapeNothing(s[1..]);
      assert [s[0]] + s[1..] == s;
    }
  }
}
