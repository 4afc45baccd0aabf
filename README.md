# Two-language localisation engine, modelled in Dafny

This project models the localisation script `i18n.js` of a Hebrew/English web page. The script does these things:

- it keeps the reader's language in `localStorage` under `acadeva-lang`, with Hebrew as the default;
- it resolves translation keys against a global key → language → text table, falling back to English;
- it makes one pass over the document that sets `lang` and `dir`, fills every bound element, updates the title and the description meta tag, and relabels the language toggle;
- it toggles between the two languages.

Modules, leaf first:

- `Wrappers` (`wrappers.dfy`): `Option`, which stands for JavaScript's `null`.
- `Lang` (`lang.dfy`): the language codes and display names, the reading direction (`Dir`), the next language (`NextLang`) and the toggle label (`ToggleLabel`).
- `Resolver` (`resolver.dfy`): the table type and `t(key, lang)` as `T`, with the fallback chain and the relations between languages (`Covers`).
- `Applicator` (`applicator.dfy`): the document as a value. Bound elements are `Node`s, which hold their binding attributes and their writable surfaces. The file also has the meta tags, the toggle button, `querySelectorAll` as `Select`, and the whole `applyTranslations` pass as the function `Translated`, with lemmas about what one pass does, idempotence, and what a pass in a second language does.
- `I18n` (`i18n.dfy`): the class `Page`. It holds the state the script changes in place: an `array` of bound nodes whose entries the five loops overwrite, the optional meta tags and toggle button, the `<html>` lang, dir and class list, the title, and the storage map. `SetLang` is proved to update only the `acadeva-lang` storage entry and to leave the document unchanged. `ApplyTranslations`, `ToggleLang` and `InitI18n` are each proved against a pure function: `Translated`, `Toggled` or `Initialized` respectively. The module also proves the lemmas about toggling twice.

Decisions:

- The model follows the code in these points. `t` uses `||` truthiness, so an empty string in the table counts as missing and is never written. `getLang` likewise treats an empty stored value as absent. `getLang` has no guard against storage failure, so no "degrade to the default on error" path is modelled. The code has five per-element binding kinds (`data-i18n`, `-html`, `-placeholder`, `-aria`, `-option`) plus the two meta-tag indirections.
- A meta tag without a `content` attribute makes `getAttribute` return `null`. The table is then indexed with `"null"` (`Applicator.AttrKey`).
- `if (titleVal)` and `if (descVal)` test truthiness. `T` never returns `""`, so the model tests for `Some`.
- The label literal on i18n.js:103 is modelled exactly as written: the five letters U+05E1 U+05D1 U+05D8 U+05D9 U+05EA (`Lang.HebrewName`). This is not the usual spelling of the Hebrew word for Hebrew (עברית). As written, that line ends in `'…'\;`, and a backslash outside a string literal is a JavaScript syntax error. The model takes the two-way choice the line evidently means.
- The round trip of the document through two toggles holds unconditionally from a stored `"he"`. From a stored `"en"`, it needs English text in every table entry. `I18n.RoundTripNeedsEnglish` gives a table where it fails without that.

## Model

| member | source | states |
|---|---|---|
| `Lang.Dir` | i18n.js:33 | direction is `rtl` exactly when the language is `he`, otherwise `ltr` |
| `Lang.NextLang` | i18n.js:115 | the next language is `en` exactly when the current one is `he`, and always one of `he`/`en` |
| `Lang.NextLangTwice` | i18n.js:113-117 | two steps return to `he` or `en`, and lead to `en` from any other code |
| `Lang.ToggleLabelNamesNext` | i18n.js:98-105 | the toggle label is the display name of the language the next toggle selects, never the current language's |
| `Lang.ToggleLabel` | i18n.js:103 | the label is `English` exactly when the language is `he`, and otherwise the Hebrew literal as written; the naming of the other language is in `ToggleLabelNamesNext` |
| `Resolver.T` | i18n.js:24-28 | a key missing from the table gives null; the result is never `""`; a result is the entry's text for the requested language or for `en` |
| `Resolver.TIsOrChain` | i18n.js:27 | `t` equals the first truthy of `entry[lang]`, `entry.en` (the `\|\|` chain) |
| `Resolver.FallbackChain` | i18n.js:24-28 | requested text when non-empty; else English text when non-empty; null exactly when the key is absent or both are empty |
| `Resolver.EnglishCoveredByAll` | i18n.js:27 | a key that resolves in English resolves in every language |
| `Resolver.AllCoveredByEnglish` | i18n.js:27 | when every entry has English text, every key that resolves in any language resolves in English |
| `Applicator.Select` | i18n.js:40 | the query result lists, in increasing document order, exactly the nodes carrying the attribute |
| `Applicator.Write` | i18n.js:44 | a write puts the value in the kind's surface; bindings and the other surfaces are unchanged |
| `Applicator.Target` | i18n.js:44-76 | the surface each kind writes: text, markup and option bindings the content, the placeholder binding the placeholder, the aria binding the aria-label; used by `Write`'s contract |
| `Applicator.Resolve` | i18n.js:42-43 | the `getAttribute` + `t(key, lang)` step of each loop (also lines 50-51, 58-59, 66-67, 74-75); null for an unbound node; used by `TranslateNodeOutcome` and `NodePassOutcome` |
| `Applicator.TranslateNode` | i18n.js:42-44 | one loop visit of a node; its properties (write only on a non-null resolve, other surfaces untouched) are in `TranslateNodeOutcome` |
| `Applicator.TranslateKind` | i18n.js:41-45 | one loop over the node list, node by node; the loop method `Page.TranslateBound` is proved equal to it |
| `Applicator.TranslateNodes` | i18n.js:39-77 | the five loops in source order as a function of the node list; its properties are in `TranslateNodesAt` (pointwise, length kept) and `NodePassOutcome` (each node's outcome) |
| `Applicator.AttrKey` | i18n.js:82 | a meta tag's key is its `content` attribute, and `"null"` when that attribute is absent (JavaScript's coercion of `null` as a property name) |
| `Applicator.NewTitle` | i18n.js:79-85 | the title changes only to the resolved value of the title meta key, and does so whenever the tag exists and the key resolves |
| `Applicator.NewDescMeta` | i18n.js:87-96 | the description tag exists afterwards iff it existed before; it changes only when the key tag exists and its key resolves, and then holds the resolved text |
| `Applicator.NewToggle` | i18n.js:98-105 | the span gets the label for the language when the button and its span exist; otherwise the button is unchanged |
| `Applicator.Translated` | i18n.js:32-109 | the pass as a function of the document; its properties are in `PassOutcome`, `TranslatedIdempotent` and `TranslatedSwitch` |
| `Applicator.TranslateNodeOutcome` | i18n.js:41-45 | one loop visit writes the kind's surface only when the key resolves; other surfaces are untouched; an unbound node is untouched |
| `Applicator.NodePassOutcome` | i18n.js:39-77 | per node: the option write wins over the markup write, which wins over the text write; placeholder and aria-label are kept when unresolved; an unbound node is unchanged |
| `Applicator.NodePassIdempotent` | i18n.js:39-77 | the five loops applied twice to a node give the same node as once |
| `Applicator.NodePassSwitch` | i18n.js:39-77 | if every key resolving in `a` resolves in `b`, a pass in `b` after one in `a` equals a pass in `b` alone |
| `Applicator.TranslateNodesAt` | i18n.js:39-77 | the five loops over the node list act on each node independently |
| `Applicator.PassOutcome` | i18n.js:32-109 | lang and dir (rtl iff `he`); every node's outcome; the title and description change only through a resolving meta key, and then to the resolved text, with the description also needing the description tag; toggle span set to `English` for `he` and the other literal otherwise, absent button or span untouched; ready class added |
| `Applicator.TranslatedIdempotent` | i18n.js:32-109 | applying the same language twice yields the same document as applying it once |
| `Applicator.TranslatedSwitch` | i18n.js:32-109 | a pass in `b` erases a previous pass in `a` when every key resolvable in `a` is resolvable in `b` |
| `I18n.StoredLang` | i18n.js:14-16 | the stored value when present and non-empty, otherwise `he`; never empty |
| `I18n.Initialized` | i18n.js:137-140 | init as a function of the state; `InitI18n` is proved equal to it, and `ToggleRoundTrip` and `ToggleRoundTripFromDefault` state what follows it |
| `I18n.Toggled` | i18n.js:113-117 | a toggle as a function of the state; its properties are in `ToggleOutcome`, `ToggleTwiceStorage`, `ToggleTwiceRestoresStorage` and the round-trip lemmas |
| `I18n.GetAfterSet` | i18n.js:14-20 | after storing a non-empty code, reading the language gives that code |
| `I18n.GetAfterSetEmpty` | i18n.js:14-20 | after storing `""`, reading the language gives the default `he` |
| `I18n.ToggleOutcome` | i18n.js:113-117 | a toggle stores `en` iff the language was `he`, else `he`; applies the stored code; other storage keys are untouched |
| `I18n.ToggleTwiceStorage` | i18n.js:113-117 | two toggles store `he` when the language was `he` (also from empty storage), and `en` otherwise |
| `I18n.ToggleTwiceRestoresStorage` | i18n.js:113-117 | two toggles from a stored `he` or `en` restore the storage exactly |
| `I18n.ToggleRoundTrip` | i18n.js:113-140 | after init from a stored `he` (or `en` with English in every entry), two toggles restore storage and document |
| `I18n.ToggleRoundTripFromDefault` | i18n.js:113-140 | when the language reads as `he` (also with nothing or `""` stored), init followed by two toggles restores the document |
| `I18n.RoundTripNeedsEnglish` | i18n.js:27 | there is a table without English text for which two toggles from a stored `en` change the document |
| `I18n.Page.GetLang` | i18n.js:14-16 | the stored value when present and non-empty, otherwise `he`; never empty |
| `I18n.Page.SetLang` | i18n.js:18-20 | overwrites the `acadeva-lang` storage entry with the given code, unvalidated; the document is unchanged |
| `I18n.Page.TranslateAt` | i18n.js:42-44 | node `idx` becomes its one-visit translation; every other node is unchanged |
| `I18n.Page.TranslateBound` | i18n.js:40-45 | the loop over the query result leaves the node array equal to the one-kind translation of the old array |
| `I18n.Page.TranslateAllBound` | i18n.js:39-77 | the five loops in source order leave the node array equal to `TranslateNodes` of the old array |
| `I18n.Page.UpdateTitle` | i18n.js:79-85 | the title becomes the resolved title key when the meta tag exists and resolves, else stays |
| `I18n.Page.UpdateDescription` | i18n.js:87-96 | the description tag's content becomes the resolved description key when the key tag, the value and the description tag all exist, else stays |
| `I18n.Page.UpdateToggleLabel` | i18n.js:98-105 | the toggle span gets the other language's name when the button and span exist, else stays |
| `I18n.Page.ApplyTranslations` | i18n.js:32-109 | the new document is `Translated` of the old one; storage is unchanged |
| `I18n.Page.ToggleLang` | i18n.js:113-117 | the new storage and document are `Toggled` of the old ones |
| `I18n.Page.InitI18n` | i18n.js:137-140 | the new storage and document are `Initialized` of the old ones: the stored language applied, storage unchanged |
| `I18n.InitThenToggleTwice` | i18n.js:113-140 | a page initialised from a stored `he` and toggled twice is back in its initialised state |

## Left out

- Real `localStorage` I/O: storage is a `map<string, string>` field, and reads and writes always succeed, as the code assumes.
- The `langchange` event dispatch and the delayed `ScrollTrigger.refresh(true)` (i18n.js:119-127): fire-and-forget calls to outside listeners and timers, which hold no state the engine reads.
- The `window.*` exports and the `readyState` / `DOMContentLoaded` bootstrapping (i18n.js:130-133, 142-147): wiring only. `InitI18n` is the operation they run.
- CSS selector matching: each element's binding attributes are given as data. The meta tags and the toggle button are given as optional values.
- The document tree: bound nodes are modelled as independent elements. A `textContent` or `innerHTML` write does not detach or create descendant bound elements. The `#langToggle` button, its span, their ancestors and the meta tags are not also bound elements: in the browser a text or markup write on the button or an ancestor would remove the span, and the label step would then find none.
- HTML parsing of `innerHTML` writes: the markup string is stored as the element's content, like a `textContent` write.
- The contents of the global `TRANSLATIONS` table: it is a parameter (the `translations` constant of `Page`). Only string values are modelled. Keys and language codes that name `Object.prototype` members (such as a stored `constructor`, which makes `entry[lang]` a truthy function) are not modelled.
