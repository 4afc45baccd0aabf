/**
 * The engine's state and operations: the stored language preference, the
 * document, and `setLang`, `applyTranslations`, `toggleLang` and `initI18n`
 * as methods that change them in place.
 */
module I18n {
  import opened Wrappers
  import opened Lang
  import opened Resolver
  import opened Applicator

  /** The localStorage key holding the preference, and the language used when it is unset. */
  const StorageKey := "acadeva-lang"
  const DefaultLang := Hebrew

  /** `getLang()`: the stored code when it is truthy, otherwise the default. */
  function StoredLang(storage: map<string, string>): (r: string)
    ensures r != ""
    ensures StorageKey in storage && storage[StorageKey] != "" ==> r == storage[StorageKey]
    ensures StorageKey !in storage || storage[StorageKey] == "" ==> r == DefaultLang
  {
    if StorageKey in storage && storage[StorageKey] != "" then storage[StorageKey] else DefaultLang
  }

  /** After `setLang(x)` with a non-empty `x`, `getLang()` reads `x` back. */
  lemma GetAfterSet(storage: map<string, string>, x: string)
    requires x != ""
    ensures StoredLang(storage[StorageKey := x]) == x
  {
  }

  /** After `setLang("")`, `getLang()` falls back to the default. */
  lemma GetAfterSetEmpty(storage: map<string, string>)
    ensures StoredLang(storage[StorageKey := ""]) == DefaultLang
  {
  }

  /** The whole state the engine touches: the origin's localStorage and the document. */
  datatype Window = Window(storage: map<string, string>, doc: Document)

  /** `initI18n()`: apply the stored language; the preference is unchanged. */
  function Initialized(table: Table, w: Window): Window {
    w.(doc := Translated(table, w.doc, StoredLang(w.storage)))
  }

  /** `toggleLang()`: persist the other language, then apply it. */
  function Toggled(table: Table, w: Window): Window {
    var next := NextLang(StoredLang(w.storage));
    Window(w.storage[StorageKey := next], Translated(table, w.doc, next))
  }

  /**
   * One toggle stores and applies English exactly when the current language
   * is Hebrew, and Hebrew otherwise, and touches no other storage key.
   */
  lemma ToggleOutcome(table: Table, w: Window)
    ensures StoredLang(Toggled(table, w).storage) == English <==> StoredLang(w.storage) == Hebrew
    ensures StoredLang(Toggled(table, w).storage) == Hebrew <==> StoredLang(w.storage) != Hebrew
    ensures Toggled(table, w).doc.lang == StoredLang(Toggled(table, w).storage)
    ensures forall key :: key != StorageKey ==>
              (key in Toggled(table, w).storage <==> key in w.storage) &&
              (key in w.storage ==> Toggled(table, w).storage[key] == w.storage[key])
  {
  }

  /**
   * Two toggles store Hebrew again when the current language is Hebrew (also
   * when nothing was stored) and English from any other stored value.
   */
  lemma ToggleTwiceStorage(table: Table, w: Window)
    ensures Toggled(table, Toggled(table, w)).storage ==
            w.storage[StorageKey := if StoredLang(w.storage) == Hebrew then Hebrew else English]
  {
  }

  /** Two toggles from a stored "he" or "en" restore the storage exactly. */
  lemma ToggleTwiceRestoresStorage(table: Table, w: Window)
    requires StorageKey in w.storage
    requires w.storage[StorageKey] == Hebrew || w.storage[StorageKey] == English
    ensures Toggled(table, Toggled(table, w)).storage == w.storage
  {
    ToggleTwiceStorage(table, w);
  }

  /**
   * After `initI18n()` from a stored "he", or from a stored "en" with English
   * text in every entry, two toggles restore both the storage and the document.
   */
  lemma {:induction false} ToggleRoundTrip(table: Table, w: Window)
    requires StorageKey in w.storage
    requires w.storage[StorageKey] == Hebrew || (w.storage[StorageKey] == English && EnglishEverywhere(table))
    ensures Toggled(table, Toggled(table, Initialized(table, w))) == Initialized(table, w)
  {
    var lang := w.storage[StorageKey];
    var w0 := Initialized(table, w);
    var w1 := Toggled(table, w0);
    ToggleTwiceRestoresStorage(table, w0);
    if lang == Hebrew {
      EnglishCoveredByAll(table, Hebrew);
    } else {
      AllCoveredByEnglish(table, Hebrew);
    }
    TranslatedSwitch(table, w0.doc, NextLang(lang), lang);
    TranslatedIdempotent(table, w.doc, lang);
  }

  /**
   * On a first visit (nothing or "" stored) the language reads as Hebrew, and
   * after `initI18n()` two toggles restore the document; only the storage
   * differs, now holding "he" (`ToggleTwiceStorage`).
   */
  lemma {:induction false} ToggleRoundTripFromDefault(table: Table, w: Window)
    requires StoredLang(w.storage) == Hebrew
    ensures Toggled(table, Toggled(table, Initialized(table, w))).doc == Initialized(table, w).doc
  {
    EnglishCoveredByAll(table, Hebrew);
    TranslatedSwitch(table, Initialized(table, w).doc, English, Hebrew);
    TranslatedIdempotent(table, w.doc, Hebrew);
  }

  /**
   * Without English text a round trip from English can fail: a key with only
   * Hebrew text keeps it on the page after switching back to English.
   */
  lemma RoundTripNeedsEnglish()
    ensures exists table: Table, w: Window ::
              StorageKey in w.storage && w.storage[StorageKey] == English &&
              Toggled(table, Toggled(table, Initialized(table, w))) != Initialized(table, w)
  {
    var table: Table := map["greeting" := map[Hebrew := "\U{05E9}\U{05DC}\U{05D5}\U{05DD}"]];
    var n := Node(map[Text := "greeting"], "Hello", "", None);
    var d := Document([n], None, None, None, None, "", "", "", {});
    var w := Window(map[StorageKey := English], d);
    var w0 := Initialized(table, w);
    assert w0.doc.nodes[0].content == "Hello";
    var w2 := Toggled(table, Toggled(table, w0));
    assert w2.doc.nodes[0].content == table["greeting"][Hebrew];
  }

  /**
   * The browser state behind the script: the bound nodes (a fixed set of
   * elements whose surfaces change in place), the meta tags, the toggle
   * button, the <html> attributes and classes, the title, and localStorage.
   * `translations` is the global TRANSLATIONS table.
   */
  class Page {
    const translations: Table
    const nodes: array<Node>
    const titleKeyMeta: Option<MetaTag>
    const descKeyMeta: Option<MetaTag>
    var descMeta: Option<MetaTag>
    var toggle: Option<ToggleButton>
    var lang: string
    var dir: string
    var title: string
    var classes: set<string>
    var storage: map<string, string>

    /** The document as a value. */
    ghost function Doc(): Document
      reads this, nodes
    {
      Document(nodes[..], titleKeyMeta, descKeyMeta, descMeta, toggle, lang, dir, title, classes)
    }

    ghost function State(): Window
      reads this, nodes
    {
      Window(storage, Doc())
    }

    constructor (table: Table, w: Window)
      ensures translations == table && fresh(nodes)
      ensures State() == w
    {
      translations := table;
      nodes := new Node[|w.doc.nodes|](i requires 0 <= i < |w.doc.nodes| => w.doc.nodes[i]);
      titleKeyMeta, descKeyMeta := w.doc.titleKeyMeta, w.doc.descKeyMeta;
      descMeta, toggle := w.doc.descMeta, w.doc.toggle;
      lang, dir, title, classes := w.doc.lang, w.doc.dir, w.doc.title, w.doc.classes;
      storage := w.storage;
    }

    /** `getLang()`. */
    function GetLang(): (r: string)
      reads this
      ensures r != ""
      ensures StorageKey in storage && storage[StorageKey] != "" ==> r == storage[StorageKey]
      ensures StorageKey !in storage || storage[StorageKey] == "" ==> r == DefaultLang
    {
      StoredLang(storage)
    }

    /** `setLang(code)`: overwrite the stored preference, with no validation. */
    method SetLang(code: string)
      modifies this
      ensures storage == old(storage)[StorageKey := code]
      ensures Doc() == old(Doc())
    {
      storage := storage[StorageKey := code];
    }

    /** One visit of a loop: resolve the `k` key of node `idx` and write it when non-null. */
    method TranslateAt(idx: nat, k: Kind, lang: string)
      requires idx < nodes.Length && k in nodes[idx].bindings
      modifies nodes
      ensures nodes[idx] == TranslateNode(translations, old(nodes[idx]), k, lang)
      ensures forall i :: 0 <= i < nodes.Length && i != idx ==> nodes[i] == old(nodes[i])
    {
      var key := nodes[idx].bindings[k];
      var val := T(translations, key, lang);
      if val.Some? {
        nodes[idx] := Write(nodes[idx], k, val.value);
      }
    }

    /** One of the five loops: visit the nodes carrying attribute `k` in document order. */
    method TranslateBound(k: Kind, lang: string)
      modifies nodes
      ensures nodes[..] == TranslateKind(translations, old(nodes[..]), k, lang)
    {
      var els := Select(nodes[..], k);
      ghost var before := nodes[..];
      ghost var after := TranslateKind(translations, before, k, lang);
      ghost var done: set<nat> := {};
      for j := 0 to |els|
        invariant forall p :: 0 <= p < j ==> els[p] in done
        invariant forall p :: j <= p < |els| ==> els[p] !in done
        invariant forall i :: 0 <= i < nodes.Length ==>
                    nodes[i] == if i in done then after[i] else before[i]
      {
        TranslateAt(els[j], k, lang);
        done := done + {els[j]};
      }
      forall i | 0 <= i < nodes.Length && i !in done
        ensures nodes[i] == after[i]
      {
        assert k !in before[i].bindings;
      }
    }

    /** The five loops of the pass, in source order. */
    method TranslateAllBound(lang: string)
      modifies nodes
      ensures nodes[..] == TranslateNodes(translations, old(nodes[..]), lang)
    {
      TranslateBound(Text, lang);
      TranslateBound(Html, lang);
      TranslateBound(Placeholder, lang);
      TranslateBound(Aria, lang);
      TranslateBound(SelectOption, lang);
    }

    /** The page title, resolved through the i18n-title-key meta tag. */
    method UpdateTitle(lang: string)
      modifies this`title
      ensures title == NewTitle(translations, old(Doc()), lang)
    {
      if titleKeyMeta.Some? {
        var titleVal := T(translations, AttrKey(titleKeyMeta.value.content), lang);
        // `if (titleVal)`: T never yields "", so truthy means non-null
        if titleVal.Some? {
          title := titleVal.value;
        }
      }
    }

    /** The description meta tag's content, resolved through the i18n-desc-key meta tag. */
    method UpdateDescription(lang: string)
      modifies this`descMeta
      ensures descMeta == NewDescMeta(translations, old(Doc()), lang)
    {
      if descKeyMeta.Some? {
        var descVal := T(translations, AttrKey(descKeyMeta.value.content), lang);
        if descVal.Some? {
          if descMeta.Some? {
            descMeta := Some(MetaTag(Some(descVal.value)));
          }
        }
      }
    }

    /** The label of the toggle button's span: the other language's name. */
    method UpdateToggleLabel(lang: string)
      modifies this`toggle
      ensures toggle == NewToggle(old(Doc()), lang)
    {
      if toggle.Some? {
        if toggle.value.span.Some? {
          toggle := Some(ToggleButton(Some(ToggleLabel(lang))));
        }
      }
    }

    /** `applyTranslations(lang)`. */
    method ApplyTranslations(lang: string)
      modifies this, nodes
      ensures storage == old(storage)
      ensures Doc() == Translated(translations, old(Doc()), lang)
    {
      ghost var d := Doc();
      var dir := Dir(lang);
      this.lang := lang;
      this.dir := dir;

      TranslateAllBound(lang);

      UpdateTitle(lang);
      UpdateDescription(lang);
      UpdateToggleLabel(lang);
      classes := classes + {ReadyClass};
    }

    /** `toggleLang()`, without the notification it dispatches afterwards. */
    method ToggleLang()
      modifies this, nodes
      ensures State() == Toggled(translations, old(State()))
    {
      var current := GetLang();
      var next := NextLang(current);
      SetLang(next);
      ApplyTranslations(next);
    }

    /** `initI18n()`. */
    method InitI18n()
      modifies this, nodes
      ensures State() == Initialized(translations, old(State()))
    {
      var lang := GetLang();
      ApplyTranslations(lang);
    }
  }

  /** A client: initialising, then toggling twice from a stored "he", gives back the initialised page. */
  method InitThenToggleTwice(table: Table, w: Window) returns (page: Page)
    requires StorageKey in w.storage && w.storage[StorageKey] == Hebrew
    ensures page.State() == Initialized(table, w)
  {
    page := new Page(table, w);
    page.InitI18n();
    page.ToggleLang();
    page.ToggleLang();
    ToggleRoundTrip(table, w);
  }
}
