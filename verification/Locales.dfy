/** Bilingual prose: how ingest fills the supported locales (seed.py, _locales) and how a read fills
    them again from stored rows (storage/_lessons.py, _resolve_locales). */
module Locales {
  import opened Schema

  const SUPPORTED_LOCALES := ["en", "ru"]

  // A JSON object in key order. A falsy value is kept as ""; any other is its string form.
  type Dict = seq<(string, string)>

  datatype Prose = Bare(text: string) | ByLocale(texts: Dict) | Unusable

  ghost predicate DistinctKeys(d: Dict) {
    forall i, j | 0 <= i < j < |d| :: d[i].0 != d[j].0
  }

  function Present(d: Dict): Dict {
    if d == [] then [] else (if d[0].1 != "" then [d[0]] else []) + Present(d[1..])
  }

  function Get(d: Dict, key: string): Option<string> {
    if d == [] then None else if d[0].0 == key then Some(d[0].1) else Get(d[1..], key)
  }

  function GetOr(d: Dict, key: string, default: string): string {
    var v := Get(d, key);
    if v.Some? then v.value else default
  }

  // The body both functions share: English is the fallback, else the first locale present.
  function Fill(raw: Dict): map<string, string> {
    var present := Present(raw);
    if present == [] then map locale | locale in SUPPORTED_LOCALES :: ""
    else
      var fallback := GetOr(present, "en", present[0].1);
      map locale | locale in SUPPORTED_LOCALES :: GetOr(present, locale, fallback)
  }

  function Normalise(prose: Prose): map<string, string> {
    match prose
    case Bare(text) => Fill([("en", text)])
    case ByLocale(texts) => Fill(texts)
    case Unusable => Fill([])
  }

  // Filled for every supported locale: all of them empty, or none.
  predicate Settled(t: map<string, string>) {
    t.Keys == {"en", "ru"} && (t["en"] == "" <==> t["ru"] == "")
  }

  lemma {:induction false} PresentIsNonEmpty(d: Dict)
    ensures forall i | 0 <= i < |Present(d)| :: Present(d)[i].1 != "" && Present(d)[i] in d
    ensures Present(d) == [] <==> forall i | 0 <= i < |d| :: d[i].1 == ""
  {
    if d != [] {
      PresentIsNonEmpty(d[1..]);
      assert d == [d[0]] + d[1..];
    }
  }

  lemma {:induction false} GetFinds(d: Dict, key: string)
    ensures Get(d, key).Some? <==> exists i :: 0 <= i < |d| && d[i].0 == key
    ensures Get(d, key).Some? ==> (key, Get(d, key).value) in d
    ensures DistinctKeys(d) ==> forall i | 0 <= i < |d| && d[i].0 == key :: Get(d, key) == Some(d[i].1)
  {
    if d != [] {
      GetFinds(d[1..], key);
      assert forall i | 0 < i < |d| :: d[i] == d[1..][i - 1];
      assert d == [d[0]] + d[1..];
    }
  }

  lemma {:induction false} GetPresent(d: Dict, key: string)
    requires DistinctKeys(d)
    ensures Get(Present(d), key) == match Get(d, key)
              case None => None
              case Some(text) => if text == "" then None else Some(text)
  {
    if d != [] {
      var rest := d[1..];
      GetPresent(rest, key);
      GetFinds(rest, key);
      assert Present(d)[if d[0].1 != "" then 1 else 0..] == Present(rest);
      assert forall i | 0 < i < |d| :: d[i] == rest[i - 1];
    }
  }

  lemma {:induction false} FillText(raw: Dict, locale: string)
    requires locale in SUPPORTED_LOCALES
    ensures locale in Fill(raw)
    ensures Fill(raw)[locale] == "" <==> forall i | 0 <= i < |raw| :: raw[i].1 == ""
  {
    PresentIsNonEmpty(raw);
    GetFinds(Present(raw), "en");
    GetFinds(Present(raw), locale);
    hide Get, Present;
  }

  lemma {:induction false} Supported(locale: string)
    ensures locale in SUPPORTED_LOCALES <==> locale == "en" || locale == "ru"
  {
    assert SUPPORTED_LOCALES[0] == "en" && SUPPORTED_LOCALES[1] == "ru";
  }

  lemma {:induction false} FillKeys(raw: Dict)
    ensures Fill(raw).Keys == {"en", "ru"}
  {
    hide Get, Present, GetOr;
    forall locale ensures locale in Fill(raw) <==> locale in {"en", "ru"} { Supported(locale); }
  }

  lemma {:induction false} FillSettles(raw: Dict)
    ensures Settled(Fill(raw))
    ensures Fill(raw)["en"] == "" <==> forall i | 0 <= i < |raw| :: raw[i].1 == ""
  {
    hide Fill;
    FillKeys(raw);
    Supported("en");
    Supported("ru");
    FillText(raw, "en");
    FillText(raw, "ru");
  }

  lemma {:induction false} FillKeeps(raw: Dict, locale: string)
    requires DistinctKeys(raw) && locale in SUPPORTED_LOCALES
    ensures Get(raw, locale).Some? && Get(raw, locale).value != "" ==> Fill(raw)[locale] == Get(raw, locale).value
  {
    GetPresent(raw, locale);
  }

  // The rows of a filled text as a read may list them: each supported locale once, in any order.
  ghost predicate Listing(rows: Dict, t: map<string, string>) {
    && DistinctKeys(rows)
    && (forall i | 0 <= i < |rows| :: rows[i].0 in t && rows[i].1 == t[rows[i].0])
    && (forall locale | locale in t :: exists i :: 0 <= i < |rows| && rows[i].0 == locale)
  }

  lemma {:induction false} SettledIsFixpoint(t: map<string, string>, rows: Dict)
    requires Settled(t) && Listing(rows, t)
    ensures Fill(rows) == t
  {
    hide DistinctKeys, Present;
    FillKeys(rows);
    PresentIsNonEmpty(rows);
    if t["en"] == "" { assert forall i | 0 <= i < |rows| :: rows[i].1 == ""; }
    forall locale | locale in t ensures Fill(rows)[locale] == t[locale] {
      GetFinds(rows, locale);
      GetPresent(rows, locale);
      Supported(locale);
    }
  }

  function Raw(prose: Prose): Dict {
    match prose case Bare(text) => [("en", text)] case ByLocale(texts) => texts case Unusable => []
  }

  /** Reading back what ingest stored, in whatever order the rows come, gives exactly what ingest
      normalised. */
  lemma {:induction false} ProseRoundTrip(prose: Prose, rows: Dict)
    requires Listing(rows, Normalise(prose))
    ensures Fill(rows) == Normalise(prose) && Settled(Normalise(prose))
  {
    hide Fill;
    FillSettles(Raw(prose));
    SettledIsFixpoint(Normalise(prose), rows);
  }

  /** The normalised text covers every supported locale, keeps each authored non-empty supported text,
      and is non-empty everywhere exactly when some authored text is, in whatever locale. */
  lemma {:induction false} NormaliseKeepsAuthored(prose: Prose)
    requires DistinctKeys(Raw(prose))
    ensures Normalise(prose).Keys == {"en", "ru"}
    ensures forall i | 0 <= i < |Raw(prose)| && Raw(prose)[i].0 in SUPPORTED_LOCALES && Raw(prose)[i].1 != "" ::
              Normalise(prose)[Raw(prose)[i].0] == Raw(prose)[i].1
    ensures forall locale | locale in Normalise(prose) ::
              Normalise(prose)[locale] == "" <==> forall i | 0 <= i < |Raw(prose)| :: Raw(prose)[i].1 == ""
  {
    hide Fill;
    var raw := Raw(prose);
    FillSettles(raw);
    forall i | 0 <= i < |raw| && raw[i].0 in SUPPORTED_LOCALES && raw[i].1 != ""
      ensures raw[i].0 in Fill(raw) && Fill(raw)[raw[i].0] == raw[i].1 {
      FillKeeps(raw, raw[i].0);
      GetFinds(raw, raw[i].0);
    }
  }

  // The first entry with a text, in key order.
  predicate FirstText(raw: Dict, i: nat) {
    i < |raw| && raw[i].1 != "" && forall j | 0 <= j < i :: raw[j].1 == ""
  }

  lemma {:induction false} FirstIsPresent(d: Dict, i: nat)
    requires FirstText(d, i)
    ensures Present(d) != [] && Present(d)[0] == d[i]
  {
    if d[0].1 == "" { FirstIsPresent(d[1..], i - 1); }
  }

  // An entry of this locale with a text.
  predicate Offers(raw: Dict, locale: string) {
    exists i | 0 <= i < |raw| :: raw[i].0 == locale && raw[i].1 != ""
  }

  lemma {:induction false} OfferedText(raw: Dict, locale: string, i: nat)
    requires DistinctKeys(raw) && i < |raw| && raw[i].0 == locale && raw[i].1 != ""
    ensures Get(Present(raw), locale) == Some(raw[i].1)
  {
    GetFinds(raw, locale);
    GetPresent(raw, locale);
  }

  lemma {:induction false} NotOffered(raw: Dict, locale: string)
    requires DistinctKeys(raw) && !Offers(raw, locale)
    ensures Get(Present(raw), locale) == None
  {
    GetFinds(raw, locale);
    GetPresent(raw, locale);
    if Get(raw, locale).Some? {
      var i :| 0 <= i < |raw| && raw[i] == (locale, Get(raw, locale).value);
    }
  }

  /** Which text a locale gets, at write and at read: its own where it has one; else the English one; else the first
      one there is, in key order. */
  lemma {:induction false} FillChooses(raw: Dict, locale: string, i: nat)
    requires DistinctKeys(raw) && locale in SUPPORTED_LOCALES && i < |raw| && raw[i].1 != ""
    ensures locale in Fill(raw)
    ensures raw[i].0 == locale ==> Fill(raw)[locale] == raw[i].1
    ensures raw[i].0 == "en" && !Offers(raw, locale) ==> Fill(raw)[locale] == raw[i].1
    ensures FirstText(raw, i) && !Offers(raw, "en") && !Offers(raw, locale) ==> Fill(raw)[locale] == raw[i].1
  {
    FillText(raw, locale);
    PresentIsNonEmpty(raw);
    if raw[i].0 == locale { OfferedText(raw, locale, i); }
    if raw[i].0 == "en" { OfferedText(raw, "en", i); }
    hide Get, Present;
    if !Offers(raw, locale) { NotOffered(raw, locale); }
    if !Offers(raw, "en") { NotOffered(raw, "en"); }
    if FirstText(raw, i) { FirstIsPresent(raw, i); }
  }

  /** The same of a prose field as it is authored: an object by its entries, a bare string as English prose. */
  lemma {:induction false} NormaliseChooses(prose: Prose, locale: string, i: nat)
    requires locale in SUPPORTED_LOCALES
    ensures prose.Bare? ==> locale in Normalise(prose) && Normalise(prose)[locale] == prose.text
    ensures prose.Unusable? ==> locale in Normalise(prose) && Normalise(prose)[locale] == ""
    ensures prose.ByLocale? && DistinctKeys(prose.texts) && i < |prose.texts| && prose.texts[i].1 != "" ==>
              var raw, own := prose.texts, locale in Normalise(prose) && Normalise(prose)[locale] == prose.texts[i].1;
              && (raw[i].0 == locale ==> own)
              && (raw[i].0 == "en" && !Offers(raw, locale) ==> own)
              && (FirstText(raw, i) && !Offers(raw, "en") && !Offers(raw, locale) ==> own)
  {
    hide Fill;
    match prose
    case Bare(text) =>
      FillText([("en", text)], locale);
      if text != "" { FillChooses([("en", text)], locale, 0); }
    case Unusable =>
      FillText([], locale);
    case ByLocale(texts) =>
      if DistinctKeys(texts) && i < |texts| && texts[i].1 != "" { FillChooses(texts, locale, i); }
  }
}
