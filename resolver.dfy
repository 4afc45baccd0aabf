/**
 * Translation lookup: a key -> language -> text table with the fallback chain
 * requested language, then English, then no value.  A JavaScript `||` chain
 * treats an empty string like a missing one.
 */
module Resolver {
  import opened Wrappers
  import opened Lang

  /** The global translation table: key -> language code -> localized text. */
  type Table = map<string, map<string, string>>

  /** `entry[lang]` when it is a truthy (present, non-empty) string. */
  predicate HasText(entry: map<string, string>, lang: string) {
    lang in entry && entry[lang] != ""
  }

  /** Resolve `key` for `lang`; `None` stands for the source's `null`. */
  function T(table: Table, key: string, lang: string): (r: Option<string>)
    ensures key !in table ==> r == None
    ensures r != Some("")
    ensures r.Some? ==>
              key in table &&
              ((lang in table[key] && r.value == table[key][lang]) ||
               (Fallback in table[key] && r.value == table[key][Fallback]))
  {
    if key !in table then None
    else
      var entry := table[key];
      if HasText(entry, lang) then Some(entry[lang])
      else if HasText(entry, Fallback) then Some(entry[Fallback])
      else None
  }

  /** The first candidate that is a non-empty string: the meaning of `a || b || null`. */
  function FirstTruthy(candidates: seq<Option<string>>): Option<string> {
    if candidates == [] then None
    else if candidates[0].Some? && candidates[0].value != "" then candidates[0]
    else FirstTruthy(candidates[1..])
  }

  /** The property `entry[p]` as JavaScript reads it: `undefined` when absent. */
  function Prop(entry: map<string, string>, p: string): Option<string> {
    if p in entry then Some(entry[p]) else None
  }

  /** `T` is exactly the `||` chain over the requested and the fallback language. */
  lemma {:induction false} TIsOrChain(table: Table, key: string, lang: string)
    requires key in table
    ensures T(table, key, lang) == FirstTruthy([Prop(table[key], lang), Prop(table[key], Fallback)])
  {
    var c := [Prop(table[key], lang), Prop(table[key], Fallback)];
    assert c[1..] == [Prop(table[key], Fallback)];
    assert c[1..][1..] == [];
    assert FirstTruthy(c[1..][1..]) == None;
    assert FirstTruthy(c[1..]) == if c[1].Some? && c[1].value != "" then c[1] else None;
  }

  /** Every step of the fallback chain, in both directions. */
  lemma FallbackChain(table: Table, key: string, lang: string)
    ensures key in table && HasText(table[key], lang) ==> T(table, key, lang) == Some(table[key][lang])
    ensures key in table && !HasText(table[key], lang) && HasText(table[key], Fallback)
      ==> T(table, key, lang) == Some(table[key][Fallback])
    ensures T(table, key, lang) == None <==>
      (key !in table || (!HasText(table[key], lang) && !HasText(table[key], Fallback)))
  {
  }

  /** Every key resolvable in `a` is resolvable in `b`. */
  ghost predicate Covers(table: Table, a: string, b: string) {
    forall key :: T(table, key, a).Some? ==> T(table, key, b).Some?
  }

  /** Every entry of the table carries non-empty English text. */
  ghost predicate EnglishEverywhere(table: Table) {
    forall key :: key in table ==> HasText(table[key], English)
  }

  /** A key with English text resolves in every language, since English is the fallback. */
  lemma EnglishCoveredByAll(table: Table, lang: string)
    ensures Covers(table, English, lang)
  {
    forall key | T(table, key, English).Some?
      ensures T(table, key, lang).Some?
    {
      FallbackChain(table, key, English);
      FallbackChain(table, key, lang);
    }
  }

  /** With English text in every entry, every key of the table resolves in English. */
  lemma AllCoveredByEnglish(table: Table, lang: string)
    requires EnglishEverywhere(table)
    ensures Covers(table, lang, English)
  {
    forall key | T(table, key, lang).Some?
      ensures T(table, key, English).Some?
    {
      FallbackChain(table, key, lang);
      FallbackChain(table, key, English);
    }
  }
}
