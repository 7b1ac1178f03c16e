/** The button prefab of the frontend DSL
    (sevdo_frontend/prefabs/button_component.py, `render_prefab`), rendered
    without nested arguments: the JSX for a button or link from its
    properties. Property values are text, and a value is truthy when it is
    present and non-empty. */
module ButtonPrefab {
  import opened Wrappers
  import opened Text

  type Props = map<string, string>

  function Get(props: Props, key: string): Option<string> {
    if key in props then Some(props[key]) else None
  }

  predicate Truthy(v: Option<string>) { v.Some? && v.value != "" }

  /** The label: the `text` property, else the `label` property, else "Click".
      A present but empty `text` is kept. */
  function Label(props: Props): (t: string)
    ensures "text" in props ==> t == props["text"]
    ensures "text" !in props && "label" in props ==> t == props["label"]
    ensures "text" !in props && "label" !in props ==> t == "Click"
  {
    if "text" in props then props["text"] else if "label" in props then props["label"] else "Click"
  }

  /** The padding and type size for `sm`, `lg`, and anything else (`md` by default). */
  function SizeClasses(size: string): (c: string)
    ensures size == "sm" ==> c == "px-3 py-1.5 text-sm"
    ensures size == "lg" ==> c == "px-5 py-3 text-base"
    ensures size != "sm" && size != "lg" ==> c == "px-4 py-2 text-sm"
  {
    if size == "sm" then "px-3 py-1.5 text-sm" else if size == "lg" then "px-5 py-3 text-base" else "px-4 py-2 text-sm"
  }

  /** The colours for `secondary`, `danger`, and anything else (`primary` by default). */
  function Palette(variant: string): (c: string)
    ensures variant == "secondary" ==> c == "bg-gray-500 hover:bg-gray-600 text-white"
    ensures variant == "danger" ==> c == "bg-red-600 hover:bg-red-700 text-white"
    ensures variant != "secondary" && variant != "danger" ==> c == "bg-blue-600 hover:bg-blue-700 text-white"
  {
    if variant == "secondary" then "bg-gray-500 hover:bg-gray-600 text-white"
    else if variant == "danger" then "bg-red-600 hover:bg-red-700 text-white"
    else "bg-blue-600 hover:bg-blue-700 text-white"
  }

  function OrDefault(v: Option<string>, d: string): string {
    if v.Some? then v.value else d
  }

  /** The class list: palette, the fixed font and corner classes, the size
      classes, and the extra classes when there are any. */
  function ClassName(props: Props): (c: string)
    ensures var base := Palette(OrDefault(Get(props, "variant"), "primary")) + " font-medium rounded "
                        + SizeClasses(OrDefault(Get(props, "size"), "md"));
      && StartsWith(c, base)
      && (Truthy(Get(props, "class")) ==> c == base + " " + props["class"])
      && (!Truthy(Get(props, "class")) ==> c == base)
  {
    var base := Palette(OrDefault(Get(props, "variant"), "primary")) + " font-medium rounded "
                + SizeClasses(OrDefault(Get(props, "size"), "md"));
    var extra := OrDefault(Get(props, "class"), "");
    var c := if extra != "" then base + " " + extra else base;
    assert c[..|base|] == base;
    c
  }

  /** The click handler attribute, present exactly when `onClick` is truthy. */
  function Handler(onClick: Option<string>): (h: string)
    ensures h == "" <==> !Truthy(onClick)
    ensures Truthy(onClick) ==> h == " onClick={" + onClick.value + "}"
  {
    if Truthy(onClick) then " onClick={" + onClick.value + "}" else ""
  }

  /** The element around its parts: a link to `href` or a button, with the
      class list, the click handler attribute and the label. */
  function Element(link: bool, cls: string, href: string, handler: string, content: string): (jsx: string)
    ensures StartsWith(jsx, "<a") <==> link
    ensures link ==> StartsWith(jsx, "<a className=\"" + cls + "\" href=\"" + href + "\"")
                     && EndsWith(jsx, handler + ">" + content + "</a>")
    ensures link ==> |jsx| == |"<a className=\"" + cls + "\" href=\"" + href + "\""| + |handler + ">" + content + "</a>"|
    ensures !link ==> StartsWith(jsx, "<button className=\"" + cls + "\"")
                      && EndsWith(jsx, handler + ">" + content + "</button>")
    ensures !link ==> |jsx| == |"<button className=\"" + cls + "\""| + |handler + ">" + content + "</button>"|
  {
    if link then
      var head := "<a className=\"" + cls + "\" href=\"" + href + "\"";
      var close := handler + ">" + content + "</a>";
      assert (head + close)[..|head|] == head;
      assert (head + close)[|head + close| - |close|..] == close;
      assert (head + close)[..2] == "<a";
      head + close
    else
      var head := "<button className=\"" + cls + "\"";
      var close := handler + ">" + content + "</button>";
      assert (head + close)[..|head|] == head;
      assert (head + close)[|head + close| - |close|..] == close;
      assert (head + close)[1] == 'b';
      head + close
  }

  /** `render_prefab` with no nested arguments: a link exactly when `href` is
      truthy, a button otherwise, with the label as its only content. */
  function Render(props: Props): (jsx: string)
    ensures StartsWith(jsx, "<a") <==> Truthy(Get(props, "href"))
    ensures Truthy(Get(props, "href")) ==>
              StartsWith(jsx, "<a className=\"" + ClassName(props) + "\" href=\"" + props["href"] + "\"")
              && EndsWith(jsx, Handler(Get(props, "onClick")) + ">" + Label(props) + "</a>")
    ensures Truthy(Get(props, "href")) ==>
              |jsx| == |"<a className=\"" + ClassName(props) + "\" href=\"" + props["href"] + "\""|
                       + |Handler(Get(props, "onClick")) + ">" + Label(props) + "</a>"|
    ensures !Truthy(Get(props, "href")) ==>
              StartsWith(jsx, "<button className=\"" + ClassName(props) + "\"")
              && EndsWith(jsx, Handler(Get(props, "onClick")) + ">" + Label(props) + "</button>")
    ensures !Truthy(Get(props, "href")) ==>
              |jsx| == |"<button className=\"" + ClassName(props) + "\""|
                       + |Handler(Get(props, "onClick")) + ">" + Label(props) + "</button>"|
  {
    var link := Truthy(Get(props, "href"));
    Element(link, ClassName(props), if link then props["href"] else "", Handler(Get(props, "onClick")), Label(props))
  }
}
