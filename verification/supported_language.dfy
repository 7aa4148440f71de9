/** The closed set of encodings a snippet may be written in, with the
    canonical names the schema engine uses for them. */
module SupportedLanguages {
  import opened Wrappers

  datatype SupportedLanguage = XML | JSON | YAML

  /** The enum's `values()`, in declaration order. */
  const AllLanguages: seq<SupportedLanguage> := [XML, JSON, YAML]

  /** `getValue()`: the engine's language name. */
  function Value(l: SupportedLanguage): string {
    match l
    case XML => "xml"
    case JSON => "json"
    case YAML => "yaml"
  }

  /** `toString()` of the enum constant. */
  function Name(l: SupportedLanguage): string {
    match l
    case XML => "XML"
    case JSON => "JSON"
    case YAML => "YAML"
  }

  /** Case folding of a single character, restricted to ASCII letters. */
  function FoldCase(c: char): char {
    if 'A' <= c <= 'Z' then (c as int + 32) as char else c
  }

  predicate SameIgnoringCase(a: string, b: string) {
    |a| == |b| && forall i :: 0 <= i < |a| ==> FoldCase(a[i]) == FoldCase(b[i])
  }

  /** `a.equalsIgnoreCase(b)`: a `null` argument never matches. */
  predicate EqualsIgnoreCase(a: string, b: Option<string>) {
    b.Some? && SameIgnoringCase(a, b.value)
  }

  lemma SameIgnoringCaseTransitive(a: string, b: string, c: string)
    requires SameIgnoringCase(a, b) && SameIgnoringCase(c, b)
    ensures SameIgnoringCase(a, c)
  {
  }

  /** No two language names are equal even when case is ignored, so at most
      one constant can match any given string. */
  lemma ValuesDistinct(l: SupportedLanguage, m: SupportedLanguage)
    requires l != m
    ensures !SameIgnoringCase(Value(l), Value(m))
  {
    if |Value(l)| == |Value(m)| {
      assert FoldCase(Value(l)[0]) != FoldCase(Value(m)[0]);
    }
  }

  lemma AllLanguagesListed(l: SupportedLanguage)
    ensures l in AllLanguages
  {
    match l
    case XML => assert AllLanguages[0] == XML;
    case JSON => assert AllLanguages[1] == JSON;
    case YAML => assert AllLanguages[2] == YAML;
  }

  /** `filter(...).findFirst()` over a list of constants. */
  function FindFirst(langs: seq<SupportedLanguage>, value: Option<string>): (r: Option<SupportedLanguage>)
    ensures r.Some? ==> r.value in langs && EqualsIgnoreCase(Value(r.value), value)
    ensures r.None? ==> forall l :: l in langs ==> !EqualsIgnoreCase(Value(l), value)
  {
    if |langs| == 0 then None
    else if EqualsIgnoreCase(Value(langs[0]), value) then Some(langs[0])
    else FindFirst(langs[1..], value)
  }

  /** `fromValue(value)`: the constant whose name equals `value` ignoring case. */
  function FromValue(value: Option<string>): (r: Option<SupportedLanguage>)
    ensures r.Some? ==> EqualsIgnoreCase(Value(r.value), value)
    ensures r.None? <==> forall l :: !EqualsIgnoreCase(Value(l), value)
  {
    var r := FindFirst(AllLanguages, value);
    assert r.None? ==> forall l :: !EqualsIgnoreCase(Value(l), value) by {
      forall l ensures l in AllLanguages { AllLanguagesListed(l); }
    }
    r
  }

  /** `isSupported(value)`. */
  function IsSupported(value: Option<string>): (b: bool)
    ensures b <==> exists l :: EqualsIgnoreCase(Value(l), value)
  {
    FromValue(value).Some?
  }

  /** A string matching a language's name ignoring case selects exactly that language. */
  lemma FromValueIgnoresCase(l: SupportedLanguage, s: string)
    requires SameIgnoringCase(Value(l), s)
    ensures FromValue(Some(s)) == Some(l)
  {
    var r := FromValue(Some(s));
    assert r.Some?;
    if r.value != l {
      SameIgnoringCaseTransitive(Value(l), s, Value(r.value));
      ValuesDistinct(l, r.value);
    }
  }

  /** `fromValue(l.getValue())` gives back `l`. */
  lemma FromValueRoundTrip(l: SupportedLanguage)
    ensures FromValue(Some(Value(l))) == Some(l)
  {
    FromValueIgnoresCase(l, Value(l));
  }

  lemma FromValueExamples()
    ensures FromValue(Some("XML")) == Some(XML)
    ensures FromValue(Some("Xml")) == Some(XML)
    ensures FromValue(Some("xml")) == Some(XML)
    ensures FromValue(Some("yml")) == None
    ensures FromValue(None) == None
  {
    FromValueIgnoresCase(XML, "XML");
    FromValueIgnoresCase(XML, "Xml");
    FromValueIgnoresCase(XML, "xml");
    assert !EqualsIgnoreCase(Value(YAML), Some("yml"));
  }

  /** Every constant's own name is supported. */
  lemma EveryValueSupported(l: SupportedLanguage)
    ensures IsSupported(Some(Value(l)))
  {
    FromValueRoundTrip(l);
  }
}
