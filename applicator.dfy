/**
 * The document as the translation pass sees it, and the pass itself as a
 * function of the document: the specification that `Page.ApplyTranslations`
 * is proved against.
 */
module Applicator {
  import opened Wrappers
  import opened Lang
  import opened Resolver

  /** The five per-node binding attributes, in the order the pass visits them. */
  datatype Kind =
    | Text          // data-i18n: textContent
    | Html          // data-i18n-html: innerHTML
    | Placeholder   // data-i18n-placeholder: the placeholder property
    | Aria          // data-i18n-aria: the aria-label attribute
    | SelectOption  // data-i18n-option: textContent of an <option>

  /** The part of a node a binding writes. */
  datatype SurfaceName = ContentSurface | PlaceholderSurface | AriaSurface

  function Target(k: Kind): SurfaceName {
    match k
    case Text | Html | SelectOption => ContentSurface
    case Placeholder => PlaceholderSurface
    case Aria => AriaSurface
  }

  /**
   * A DOM element: the binding attributes it carries (kind -> key) and the
   * surfaces the pass may write.  `content` is both textContent and innerHTML.
   */
  datatype Node = Node(
    bindings: map<Kind, string>,
    content: string,
    placeholder: string,
    ariaLabel: Option<string>)

  /** A <meta> element with its `content` attribute (absent: `None`). */
  datatype MetaTag = MetaTag(content: Option<string>)

  /** The #langToggle button and the text of the <span> inside it (no span: `None`). */
  datatype ToggleButton = ToggleButton(span: Option<string>)

  /**
   * Everything the pass reads or writes: the bound nodes in document order,
   * the i18n-title-key, i18n-desc-key and description meta tags, the toggle
   * button, the <html> element's lang, dir and class list, and the title.
   */
  datatype Document = Document(
    nodes: seq<Node>,
    titleKeyMeta: Option<MetaTag>,
    descKeyMeta: Option<MetaTag>,
    descMeta: Option<MetaTag>,
    toggle: Option<ToggleButton>,
    lang: string,
    dir: string,
    title: string,
    classes: set<string>)

  const ReadyClass := "i18n-ready"

  /** The value of a surface. */
  function Surface(n: Node, s: SurfaceName): Option<string> {
    match s
    case ContentSurface => Some(n.content)
    case PlaceholderSurface => Some(n.placeholder)
    case AriaSurface => n.ariaLabel
  }

  /**
   * The indices of the nodes carrying attribute `k`, in document order:
   * `querySelectorAll('[data-i18n…]')`.
   */
  function Select(ns: seq<Node>, k: Kind): (r: seq<nat>)
    ensures forall p :: 0 <= p < |r| ==> r[p] < |ns| && k in ns[r[p]].bindings
    ensures forall p, q :: 0 <= p < q < |r| ==> r[p] < r[q]
    ensures forall i :: 0 <= i < |ns| && k in ns[i].bindings ==> i in r
  {
    if ns == [] then []
    else
      var last := |ns| - 1;
      var front := Select(ns[..last], k);
      assert forall i :: 0 <= i < last ==> ns[..last][i] == ns[i];
      if k in ns[last].bindings then front + [last] else front
  }

  /** Writing `v` into the surface of kind `k`: that surface holds `v`, nothing else moves. */
  function Write(n: Node, k: Kind, v: string): (r: Node)
    ensures r.bindings == n.bindings
    ensures Surface(r, Target(k)) == Some(v)
    ensures forall s :: s != Target(k) ==> Surface(r, s) == Surface(n, s)
  {
    match Target(k)
    case ContentSurface => n.(content := v)
    case PlaceholderSurface => n.(placeholder := v)
    case AriaSurface => n.(ariaLabel := Some(v))
  }

  /** The resolved value for the node's `k` binding; `None` for an unbound node. */
  function Resolve(table: Table, n: Node, k: Kind, lang: string): Option<string> {
    if k in n.bindings then T(table, n.bindings[k], lang) else None
  }

  /** One node visited by the loop for `k`: written only when the value is non-null. */
  function TranslateNode(table: Table, n: Node, k: Kind, lang: string): Node {
    match Resolve(table, n, k, lang)
    case None => n
    case Some(v) => Write(n, k, v)
  }

  /** The loop for `k` over the whole document. */
  function TranslateKind(table: Table, ns: seq<Node>, k: Kind, lang: string): seq<Node> {
    seq(|ns|, i requires 0 <= i < |ns| => TranslateNode(table, ns[i], k, lang))
  }

  /** The five loops of the pass, one node at a time. */
  function NodePass(table: Table, n: Node, lang: string): Node {
    var n1 := TranslateNode(table, n, Text, lang);
    var n2 := TranslateNode(table, n1, Html, lang);
    var n3 := TranslateNode(table, n2, Placeholder, lang);
    var n4 := TranslateNode(table, n3, Aria, lang);
    TranslateNode(table, n4, SelectOption, lang)
  }

  /** The five loops of the pass, in source order. */
  function TranslateNodes(table: Table, ns: seq<Node>, lang: string): seq<Node> {
    var ns1 := TranslateKind(table, ns, Text, lang);
    var ns2 := TranslateKind(table, ns1, Html, lang);
    var ns3 := TranslateKind(table, ns2, Placeholder, lang);
    var ns4 := TranslateKind(table, ns3, Aria, lang);
    TranslateKind(table, ns4, SelectOption, lang)
  }

  /** The key a meta tag's `content` attribute names; `getAttribute` null indexes the table as "null". */
  function AttrKey(content: Option<string>): (r: string)
    ensures content.Some? ==> r == content.value
    ensures content.None? ==> r == "null"
  {
    content.GetOr("null")
  }

  /** The title after the pass: resolved through the i18n-title-key meta tag when it resolves. */
  function NewTitle(table: Table, d: Document, lang: string): (r: string)
    ensures r != d.title ==> d.titleKeyMeta.Some? && T(table, AttrKey(d.titleKeyMeta.value.content), lang) == Some(r)
    ensures d.titleKeyMeta.Some? && T(table, AttrKey(d.titleKeyMeta.value.content), lang).Some? ==>
              r == T(table, AttrKey(d.titleKeyMeta.value.content), lang).value
  {
    match d.titleKeyMeta
    case None => d.title
    case Some(m) =>
      match T(table, AttrKey(m.content), lang)
      case None => d.title
      case Some(v) => v
  }

  /** The description meta tag after the pass. */
  function NewDescMeta(table: Table, d: Document, lang: string): (r: Option<MetaTag>)
    ensures r.Some? <==> d.descMeta.Some?
    ensures r != d.descMeta ==>
              d.descKeyMeta.Some? && d.descMeta.Some? &&
              T(table, AttrKey(d.descKeyMeta.value.content), lang).Some? &&
              r == Some(MetaTag(T(table, AttrKey(d.descKeyMeta.value.content), lang)))
    ensures d.descKeyMeta.Some? && d.descMeta.Some? && T(table, AttrKey(d.descKeyMeta.value.content), lang).Some? ==>
              r == Some(MetaTag(T(table, AttrKey(d.descKeyMeta.value.content), lang)))
  {
    match d.descKeyMeta
    case None => d.descMeta
    case Some(m) =>
      match T(table, AttrKey(m.content), lang)
      case None => d.descMeta
      case Some(v) => if d.descMeta.Some? then Some(MetaTag(Some(v))) else None
  }

  /** The toggle button after the pass. */
  function NewToggle(d: Document, lang: string): (r: Option<ToggleButton>)
    ensures d.toggle.Some? && d.toggle.value.span.Some? ==> r == Some(ToggleButton(Some(ToggleLabel(lang))))
    ensures !(d.toggle.Some? && d.toggle.value.span.Some?) ==> r == d.toggle
  {
    match d.toggle
    case Some(ToggleButton(Some(_))) => Some(ToggleButton(Some(ToggleLabel(lang))))
    case _ => d.toggle
  }

  /** `applyTranslations(lang)` as a function of the document. */
  function Translated(table: Table, d: Document, lang: string): Document {
    d.(lang := lang,
       dir := Dir(lang),
       nodes := TranslateNodes(table, d.nodes, lang),
       title := NewTitle(table, d, lang),
       descMeta := NewDescMeta(table, d, lang),
       toggle := NewToggle(d, lang),
       classes := d.classes + {ReadyClass})
  }

  // ---------------------------------------------------------------------------
  // What one pass does to a node

  /**
   * One visit of the loop for `k`: the surface of `k` becomes the resolved
   * value when there is one and is kept otherwise; the other surfaces and the
   * bindings never change.
   */
  lemma TranslateNodeOutcome(table: Table, n: Node, k: Kind, lang: string)
    ensures TranslateNode(table, n, k, lang).bindings == n.bindings
    ensures Surface(TranslateNode(table, n, k, lang), Target(k)) ==
              if Resolve(table, n, k, lang).Some? then Resolve(table, n, k, lang) else Surface(n, Target(k))
    ensures forall s :: s != Target(k) ==> Surface(TranslateNode(table, n, k, lang), s) == Surface(n, s)
    ensures k !in n.bindings ==> TranslateNode(table, n, k, lang) == n
  {
  }

  /**
   * One node after the pass: a content write by the option binding wins over
   * one by the markup binding, which wins over one by the text binding; each
   * surface is kept when no binding for it resolves; an unbound node is untouched.
   */
  lemma NodePassOutcome(table: Table, n: Node, lang: string)
    ensures NodePass(table, n, lang).bindings == n.bindings
    ensures NodePass(table, n, lang).content ==
      if Resolve(table, n, SelectOption, lang).Some? then Resolve(table, n, SelectOption, lang).value
      else if Resolve(table, n, Html, lang).Some? then Resolve(table, n, Html, lang).value
      else if Resolve(table, n, Text, lang).Some? then Resolve(table, n, Text, lang).value
      else n.content
    ensures NodePass(table, n, lang).placeholder == Resolve(table, n, Placeholder, lang).GetOr(n.placeholder)
    ensures NodePass(table, n, lang).ariaLabel ==
      if Resolve(table, n, Aria, lang).Some? then Resolve(table, n, Aria, lang) else n.ariaLabel
    ensures n.bindings == map[] ==> NodePass(table, n, lang) == n
  {
  }

  /** A node's pass result depends on its bindings, and on its old surfaces only where nothing resolves. */
  lemma NodePassIdempotent(table: Table, n: Node, lang: string)
    ensures NodePass(table, NodePass(table, n, lang), lang) == NodePass(table, n, lang)
  {
    NodePassOutcome(table, n, lang);
    NodePassOutcome(table, NodePass(table, n, lang), lang);
  }

  /** When every key resolvable in `a` is resolvable in `b`, a pass in `b` erases a pass in `a`. */
  lemma NodePassSwitch(table: Table, n: Node, a: string, b: string)
    requires Covers(table, a, b)
    ensures NodePass(table, NodePass(table, n, a), b) == NodePass(table, n, b)
  {
    var m := NodePass(table, n, a);
    NodePassOutcome(table, n, a);
    NodePassOutcome(table, m, b);
    NodePassOutcome(table, n, b);
    forall k | k in n.bindings
      ensures Resolve(table, m, k, b) == Resolve(table, n, k, b)
      ensures Resolve(table, n, k, b).None? ==> Resolve(table, n, k, a).None?
    {
      assert T(table, n.bindings[k], a).Some? ==> T(table, n.bindings[k], b).Some?;
    }
  }

  /** The pass, node by node. */
  lemma TranslateNodesAt(table: Table, ns: seq<Node>, lang: string)
    ensures |TranslateNodes(table, ns, lang)| == |ns|
    ensures forall i :: 0 <= i < |ns| ==> TranslateNodes(table, ns, lang)[i] == NodePass(table, ns[i], lang)
  {
  }

  // ---------------------------------------------------------------------------
  // What one pass does to the document

  /**
   * After `applyTranslations(lang)`: lang is `lang` and dir is rtl exactly for
   * Hebrew; every node is its `NodePass`; the title and description change only
   * when their meta key resolves (and, for the description, the description meta
   * tag exists); the toggle span, when there is one, names the other language;
   * the ready class is set; no other class and no meta key tag changes.
   */
  lemma PassOutcome(table: Table, d: Document, lang: string)
    ensures Translated(table, d, lang).lang == lang
    ensures Translated(table, d, lang).dir == Rtl <==> lang == Hebrew
    ensures Translated(table, d, lang).dir == Ltr <==> lang != Hebrew
    ensures |Translated(table, d, lang).nodes| == |d.nodes|
    ensures forall i :: 0 <= i < |d.nodes| ==> Translated(table, d, lang).nodes[i] == NodePass(table, d.nodes[i], lang)
    ensures Translated(table, d, lang).title != d.title ==>
              d.titleKeyMeta.Some? && T(table, AttrKey(d.titleKeyMeta.value.content), lang) == Some(Translated(table, d, lang).title)
    ensures d.titleKeyMeta.Some? && T(table, AttrKey(d.titleKeyMeta.value.content), lang).Some? ==>
              Translated(table, d, lang).title == T(table, AttrKey(d.titleKeyMeta.value.content), lang).value
    ensures Translated(table, d, lang).descMeta.Some? <==> d.descMeta.Some?
    ensures Translated(table, d, lang).descMeta != d.descMeta ==>
              d.descKeyMeta.Some? && d.descMeta.Some? &&
              T(table, AttrKey(d.descKeyMeta.value.content), lang).Some? &&
              Translated(table, d, lang).descMeta == Some(MetaTag(T(table, AttrKey(d.descKeyMeta.value.content), lang)))
    ensures d.descKeyMeta.Some? && d.descMeta.Some? && T(table, AttrKey(d.descKeyMeta.value.content), lang).Some? ==>
              Translated(table, d, lang).descMeta == Some(MetaTag(T(table, AttrKey(d.descKeyMeta.value.content), lang)))
    ensures d.toggle.Some? && d.toggle.value.span.Some? ==>
              Translated(table, d, lang).toggle == Some(ToggleButton(Some(if lang == Hebrew then EnglishName else HebrewName)))
    ensures !(d.toggle.Some? && d.toggle.value.span.Some?) ==> Translated(table, d, lang).toggle == d.toggle
    ensures Translated(table, d, lang).classes == d.classes + {ReadyClass}
    ensures Translated(table, d, lang).titleKeyMeta == d.titleKeyMeta
    ensures Translated(table, d, lang).descKeyMeta == d.descKeyMeta
  {
    TranslateNodesAt(table, d.nodes, lang);
  }

  /** Applying the same language twice leaves the document as applying it once. */
  lemma {:induction false} TranslatedIdempotent(table: Table, d: Document, lang: string)
    ensures Translated(table, Translated(table, d, lang), lang) == Translated(table, d, lang)
  {
    var d1 := Translated(table, d, lang);
    var d2 := Translated(table, d1, lang);
    TranslateNodesAt(table, d.nodes, lang);
    TranslateNodesAt(table, d1.nodes, lang);
    forall i | 0 <= i < |d.nodes|
      ensures d2.nodes[i] == d1.nodes[i]
    {
      NodePassIdempotent(table, d.nodes[i], lang);
    }
    assert d2.nodes == d1.nodes;
  }

  /**
   * A pass in `b` after a pass in `a` gives what a pass in `b` alone gives,
   * when every key resolvable in `a` is resolvable in `b`.
   */
  lemma {:induction false} TranslatedSwitch(table: Table, d: Document, a: string, b: string)
    requires Covers(table, a, b)
    ensures Translated(table, Translated(table, d, a), b) == Translated(table, d, b)
  {
    var da := Translated(table, d, a);
    var lhs := Translated(table, da, b);
    var rhs := Translated(table, d, b);
    TranslateNodesAt(table, d.nodes, a);
    TranslateNodesAt(table, da.nodes, b);
    TranslateNodesAt(table, d.nodes, b);
    forall i | 0 <= i < |d.nodes|
      ensures lhs.nodes[i] == rhs.nodes[i]
    {
      NodePassSwitch(table, d.nodes[i], a, b);
    }
    assert lhs.nodes == rhs.nodes;
    if d.titleKeyMeta.Some? {
      var key := AttrKey(d.titleKeyMeta.value.content);
      assert T(table, key, a).Some? ==> T(table, key, b).Some?;
    }
    if d.descKeyMeta.Some? {
      var key := AttrKey(d.descKeyMeta.value.content);
      assert T(table, key, a).Some? ==> T(table, key, b).Some?;
    }
  }
}
