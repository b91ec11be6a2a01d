/** `CulturalEntryFilter`: a conjunction of optional per-field tests over a
    query set of entries. */
module Filters {
  import opened Wrappers
  import opened Text
  import opened Seqs
  import opened Models

  /** A number parameter after decimal parsing: the finite decimal
      `num / 10^scale`, or text that is not a finite decimal. */
  datatype NumberParam = Decimal(num: int, scale: nat) | InvalidNumber

  /** The query parameters the filter set reads, as received. An absent
      parameter is `None`. */
  datatype FilterParams = FilterParams(
    isiZuluText: Option<string>,
    englishTranslation: Option<string>,
    partOfSpeech: Option<string>,
    genre: Option<string>,
    minFrequency: Option<NumberParam>,
    maxFrequency: Option<NumberParam>,
    frequency: Option<NumberParam>)

  /** The filters of the filter set, one per query parameter. */
  datatype FilterField =
    | IsiZuluTextField | EnglishTranslationField | PartOfSpeechField | GenreField
    | FrequencyField | MinFrequencyField | MaxFrequencyField

  /** The query parameter a filter reads. */
  function ParamName(f: FilterField): string {
    match f
    case IsiZuluTextField => "isiZulu_text"
    case EnglishTranslationField => "english_translation"
    case PartOfSpeechField => "part_of_speech"
    case GenreField => "genre"
    case FrequencyField => "frequency"
    case MinFrequencyField => "min_frequency"
    case MaxFrequencyField => "max_frequency"
  }

  /** The filters whose parameter fails form validation; the error names
      them by `ParamName`. */
  datatype FilterError = InvalidParams(fields: seq<FilterField>)

  const NoParams := FilterParams(None, None, None, None, None, None, None)

  /** A choice filter runs only when its value is neither absent nor empty;
      its value is not stripped. */
  predicate Given(v: Option<string>) {
    v.Some? && v.value != ""
  }

  /** A text parameter is stripped of surrounding whitespace first, and runs
      only when something is left. */
  predicate TextGiven(v: Option<string>) {
    v.Some? && Strip(v.value) != ""
  }

  /** A text filter's form field refuses a value with a null character.
      The field checks the stripped value (`TextOkStripped`), which holds a
      null character exactly when the value does. */
  predicate TextOk(v: Option<string>) {
    v.None? || '\0' !in v.value
  }

  /** Stripping removes only whitespace, and the null character is not
      whitespace: the stripped value holds one exactly when the raw value
      does. */
  lemma TextOkStripped(v: Option<string>)
    requires v.Some?
    ensures TextOk(v) <==> '\0' !in Strip(v.value)
  {
    var s := v.value;
    var r := Strip(s);
    var i := SkipSpaces(s, 0);
    assert !IsSpace('\0');
    if '\0' in s {
      var k :| 0 <= k < |s| && s[k] == '\0';
      assert i <= k < i + |r|;
      assert r[k - i] == '\0';
    }
    if '\0' in r {
      var k :| 0 <= k < |r| && r[k] == '\0';
      assert s[i + k] == '\0';
    }
  }

  /** A choice filter accepts an empty value or one of its choices. */
  predicate ChoiceOk(v: Option<string>, choices: seq<string>) {
    !Given(v) || v.value in choices
  }

  /** A number filter accepts an absent value or a finite decimal. */
  predicate NumberOk(v: Option<NumberParam>) {
    v != Some(InvalidNumber)
  }

  predicate AllValid(p: FilterParams) {
    && TextOk(p.isiZuluText)
    && TextOk(p.englishTranslation)
    && ChoiceOk(p.partOfSpeech, PartOfSpeechChoices)
    && ChoiceOk(p.genre, GenreChoices)
    && NumberOk(p.frequency)
    && NumberOk(p.minFrequency)
    && NumberOk(p.maxFrequency)
  }

  /** Whether the parameter of filter `f` passes form validation. */
  predicate FieldOk(p: FilterParams, f: FilterField) {
    match f
    case IsiZuluTextField => TextOk(p.isiZuluText)
    case EnglishTranslationField => TextOk(p.englishTranslation)
    case PartOfSpeechField => ChoiceOk(p.partOfSpeech, PartOfSpeechChoices)
    case GenreField => ChoiceOk(p.genre, GenreChoices)
    case FrequencyField => NumberOk(p.frequency)
    case MinFrequencyField => NumberOk(p.minFrequency)
    case MaxFrequencyField => NumberOk(p.maxFrequency)
  }

  /** The form's field order: the filters generated from `Meta.fields`
      first, then the declared ones that `Meta.fields` does not name. */
  const FormOrder: seq<FilterField> := [
    IsiZuluTextField, EnglishTranslationField, PartOfSpeechField, GenreField,
    FrequencyField, MinFrequencyField, MaxFrequencyField]

  /** Parameters on which every field check agrees name the same failing
      filters. */
  lemma {:induction false} FailingSame(p: FilterParams, q: FilterParams, fs: seq<FilterField>)
    requires forall f :: FieldOk(p, f) == FieldOk(q, f)
    ensures Failing(p, fs) == Failing(q, fs)
  {
    if fs != [] {
      FailingSame(p, q, fs[1..]);
    }
  }

  /** Every filter has its place in the form's field order. */
  lemma InFormOrder(f: FilterField)
    ensures f in FormOrder
  {
    match f
    case IsiZuluTextField => assert FormOrder[0] == f;
    case EnglishTranslationField => assert FormOrder[1] == f;
    case PartOfSpeechField => assert FormOrder[2] == f;
    case GenreField => assert FormOrder[3] == f;
    case FrequencyField => assert FormOrder[4] == f;
    case MinFrequencyField => assert FormOrder[5] == f;
    case MaxFrequencyField => assert FormOrder[6] == f;
  }

  /** The filters of `fs` whose parameter fails validation, in order. */
  function Failing(p: FilterParams, fs: seq<FilterField>): (r: seq<FilterField>)
    ensures forall f :: f in r <==> f in fs && !FieldOk(p, f)
  {
    if fs == [] then []
    else (if FieldOk(p, fs[0]) then [] else [fs[0]]) + Failing(p, fs[1..])
  }

  /** The filters whose parameter fails validation, in the form's field
      order: each filter is named exactly when its own parameter is
      invalid, and none is named exactly when the form is valid. */
  function InvalidFields(p: FilterParams): (r: seq<FilterField>)
    ensures forall f :: f in r <==> !FieldOk(p, f)
    ensures r == [] <==> AllValid(p)
  {
    var r := Failing(p, FormOrder);
    forall f ensures f in FormOrder { InFormOrder(f); }
    if r != [] then
      assert r[0] in r;
      r
    else
      assert FieldOk(p, IsiZuluTextField) && FieldOk(p, EnglishTranslationField);
      assert FieldOk(p, PartOfSpeechField) && FieldOk(p, GenreField);
      assert FieldOk(p, FrequencyField) && FieldOk(p, MinFrequencyField) && FieldOk(p, MaxFrequencyField);
      r
  }

  function Pow10(n: nat): (r: nat)
    ensures r >= 1
  {
    if n == 0 then 1 else 10 * Pow10(n - 1)
  }

  /** `int(d)` of a decimal: its value truncated toward zero. An integer
      column converts a lookup value this way before comparing. */
  function Truncate(num: int, scale: nat): (r: int)
    ensures num >= 0 ==> r * Pow10(scale) <= num < (r + 1) * Pow10(scale)
    ensures num < 0 ==> (r - 1) * Pow10(scale) < num <= r * Pow10(scale)
  {
    if num >= 0 then num / Pow10(scale) else -((-num) / Pow10(scale))
  }

  /** The integer a valid number parameter is compared with. */
  function Bound(d: NumberParam): int
    requires d.Decimal?
  {
    Truncate(d.num, d.scale)
  }

  /** `lookup_expr='icontains'` on the stripped value. */
  predicate TextFilter(field: string, v: Option<string>) {
    !TextGiven(v) || IContains(field, Strip(v.value))
  }

  /** A choice filter's exact match. */
  predicate ExactFilter(field: string, v: Option<string>) {
    !Given(v) || field == v.value
  }

  /** A number filter with comparison `cmp` against the parsed value. */
  predicate NumberFilter(field: int, v: Option<NumberParam>, cmp: (int, int) -> bool) {
    v.None? || (v.value.Decimal? && cmp(field, Bound(v.value)))
  }

  /** All declared filters and the `frequency` filter generated from `Meta.fields`. */
  predicate Passes(e: CulturalEntry, p: FilterParams) {
    && TextFilter(e.isiZuluText, p.isiZuluText)
    && TextFilter(e.englishTranslation, p.englishTranslation)
    && ExactFilter(e.partOfSpeech, p.partOfSpeech)
    && ExactFilter(e.genre, p.genre)
    && NumberFilter(e.frequency, p.minFrequency, (a, b) => a >= b)
    && NumberFilter(e.frequency, p.maxFrequency, (a, b) => a <= b)
    && NumberFilter(e.frequency, p.frequency, (a, b) => a == b)
  }

  /** The filter set applied to a query set: a parameter that fails
      validation rejects the request; otherwise the entries that pass every
      filter, in order. */
  function FilterQueryset(qs: seq<CulturalEntry>, p: FilterParams): (r: Result<seq<CulturalEntry>, FilterError>)
    ensures r.Failure? <==> !AllValid(p)
    ensures r.Failure? ==> r.error.fields == InvalidFields(p)
    ensures r.Success? ==> |r.value| <= |qs| && forall e :: e in r.value <==> e in qs && Passes(e, p)
  {
    var bad := InvalidFields(p);
    if bad != [] then Failure(InvalidParams(bad))
    else Success(Filter(qs, (e: CulturalEntry) => Passes(e, p)))
  }

  /** Each filter in terms of what it promises: substring occurrence of the
      stripped value after case folding for the text filters, equality for
      the choice filters, and for the number filters a comparison with the
      parsed value truncated to an integer, which an invalid number never
      passes. */
  lemma PassesIff(e: CulturalEntry, p: FilterParams)
    ensures Passes(e, p) <==>
      && (TextGiven(p.isiZuluText) ==>
            exists i :: OccursAt(Lower(e.isiZuluText), Lower(Strip(p.isiZuluText.value)), i))
      && (TextGiven(p.englishTranslation) ==>
            exists i :: OccursAt(Lower(e.englishTranslation), Lower(Strip(p.englishTranslation.value)), i))
      && (Given(p.partOfSpeech) ==> e.partOfSpeech == p.partOfSpeech.value)
      && (Given(p.genre) ==> e.genre == p.genre.value)
      && (p.minFrequency.Some? ==>
            p.minFrequency.value.Decimal? && e.frequency >= Truncate(p.minFrequency.value.num, p.minFrequency.value.scale))
      && (p.maxFrequency.Some? ==>
            p.maxFrequency.value.Decimal? && e.frequency <= Truncate(p.maxFrequency.value.num, p.maxFrequency.value.scale))
      && (p.frequency.Some? ==>
            p.frequency.value.Decimal? && e.frequency == Truncate(p.frequency.value.num, p.frequency.value.scale))
  {
    if TextGiven(p.isiZuluText) {
      ContainsIff(Lower(e.isiZuluText), Lower(Strip(p.isiZuluText.value)));
    }
    if TextGiven(p.englishTranslation) {
      ContainsIff(Lower(e.englishTranslation), Lower(Strip(p.englishTranslation.value)));
    }
  }

  /** A text parameter made only of whitespace filters nothing out: the
      result is that of leaving the parameter out. */
  lemma BlankTextParamIgnored(qs: seq<CulturalEntry>, p: FilterParams)
    requires p.isiZuluText.Some? && forall k :: 0 <= k < |p.isiZuluText.value| ==> IsSpace(p.isiZuluText.value[k])
    ensures FilterQueryset(qs, p) == FilterQueryset(qs, p.(isiZuluText := None))
  {
    var q := p.(isiZuluText := None);
    assert Strip(p.isiZuluText.value) == [];
    assert !IsSpace('\0');
    assert TextOk(p.isiZuluText);
    forall f ensures FieldOk(p, f) == FieldOk(q, f) { }
    FailingSame(p, q, FormOrder);
    if AllValid(p) {
      FilterCongruent(qs, (e: CulturalEntry) => Passes(e, p), (e: CulturalEntry) => Passes(e, q));
    }
  }

  /** A valid, non-empty choice filter only lets through entries with
      exactly the requested part of speech and genre, which are then
      accepted choices. */
  lemma ChoiceFilterKeepsChoices(qs: seq<CulturalEntry>, p: FilterParams)
    requires Given(p.partOfSpeech) && Given(p.genre)
    requires FilterQueryset(qs, p).Success?
    ensures forall e :: e in FilterQueryset(qs, p).value ==>
      && e.partOfSpeech == p.partOfSpeech.value && e.genre == p.genre.value
      && e.partOfSpeech in PartOfSpeechChoices && e.genre in GenreChoices
  {
  }

  /** With no parameters the filter set is the identity. */
  lemma NoParamsKeepAll(qs: seq<CulturalEntry>)
    ensures FilterQueryset(qs, NoParams) == Success(qs)
  {
    FilterAll(qs, (e: CulturalEntry) => Passes(e, NoParams));
  }
}
