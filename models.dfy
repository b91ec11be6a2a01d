/** The corpus schema: the `CulturalEntry`, `UsageExample`,
    `AdditionalTranslation`, `Collocation` and `ActivityLog` records, their
    closed choice sets, defaults, uniqueness constraints and default orderings.
    A table is a sequence of rows kept in creation (primary-key) order;
    `created_at` is an abstract tick of a creation counter. */
module Models {
  import opened Wrappers
  import opened Seqs
  import opened Sorting
  import opened Text

  const PartOfSpeechChoices: seq<string> :=
    ["noun", "verb", "adjective", "adverb", "proverb", "idiom", "narrative", "song", "greeting", "cultural"]
  const GenreChoices: seq<string> := ["proverb", "idiom", "narrative", "song", "greeting", "cultural"]
  const LanguageChoices: seq<string> := ["isixhosa", "sesotho", "setswana", "tshivenda", "xitsonga"]

  /** `max_length` of an entry's `source`. */
  const SourceMaxLength := 200

  datatype CulturalEntry = CulturalEntry(
    id: nat,
    isiZuluText: string,
    englishTranslation: string,
    partOfSpeech: string,
    genre: string,
    culturalContext: string,
    source: string,
    frequency: nat,
    isActive: bool,
    createdAt: nat)

  datatype UsageExample = UsageExample(id: nat, entryId: nat, isiZuluExample: string, englishExample: string)

  datatype AdditionalTranslation = AdditionalTranslation(id: nat, entryId: nat, language: string, translation: string)

  datatype Collocation = Collocation(id: nat, entryId: nat, phrase: string, frequency: int)

  datatype ActivityLog = ActivityLog(
    id: nat,
    user: Option<nat>,
    action: string,
    description: string,
    ipAddress: Option<string>,
    createdAt: nat)

  /** Field rules that validation enforces on an entry's own columns: both
      texts have at least one character, the context is not blank, the two
      categories come from their choice lists and the source fits its column. */
  predicate ValidEntryFields(isiZuluText: string, englishTranslation: string, partOfSpeech: string,
                             genre: string, culturalContext: string, source: string) {
    && |isiZuluText| >= 1
    && |englishTranslation| >= 1
    && partOfSpeech in PartOfSpeechChoices
    && genre in GenreChoices
    && |culturalContext| >= 1
    && |source| <= SourceMaxLength
  }

  predicate ValidEntry(e: CulturalEntry) {
    ValidEntryFields(e.isiZuluText, e.englishTranslation, e.partOfSpeech, e.genre, e.culturalContext, e.source)
  }

  /** `unique_together = ['entry', 'language']`. */
  predicate UniqueLanguages(ts: seq<AdditionalTranslation>) {
    forall i, j :: 0 <= i < j < |ts| ==> ts[i].entryId != ts[j].entryId || ts[i].language != ts[j].language
  }

  /** `unique_together = ['entry', 'phrase']`. */
  predicate UniquePhrases(cs: seq<Collocation>) {
    forall i, j :: 0 <= i < j < |cs| ==> cs[i].entryId != cs[j].entryId || cs[i].phrase != cs[j].phrase
  }

  // ---------------------------------------------------------------------
  // Validated serializer input

  datatype ExampleData = ExampleData(isiZuluExample: string, englishExample: string)

  datatype TranslationData = TranslationData(language: string, translation: string)

  /** The writable fields of an entry after serializer validation. `id`,
      `frequency`, `created_at` and `updated_at` are read-only and have no
      place here, so a client cannot set them. */
  datatype EntryData = EntryData(
    isiZuluText: string,
    englishTranslation: string,
    partOfSpeech: string,
    genre: string,
    culturalContext: string,
    source: string,
    isActive: Option<bool>,
    examples: seq<ExampleData>,
    translations: seq<TranslationData>)

  predicate ValidExampleData(x: ExampleData) {
    |x.isiZuluExample| >= 1 && |x.englishExample| >= 1
  }

  predicate ValidTranslationData(t: TranslationData) {
    t.language in LanguageChoices && |t.translation| >= 1
  }

  /** What the serializer's field validation guarantees of its output. */
  predicate ValidEntryData(d: EntryData) {
    && ValidEntryFields(d.isiZuluText, d.englishTranslation, d.partOfSpeech, d.genre, d.culturalContext, d.source)
    && (forall k :: 0 <= k < |d.examples| ==> ValidExampleData(d.examples[k]))
    && (forall k :: 0 <= k < |d.translations| ==> ValidTranslationData(d.translations[k]))
  }

  // ---------------------------------------------------------------------
  // Rows created from data

  /** `CulturalEntry.objects.create(**validated_data)`: the model defaults fill
      what the data leaves out. */
  function NewEntry(id: nat, createdAt: nat, d: EntryData): (e: CulturalEntry)
    ensures e.id == id && e.createdAt == createdAt
    ensures e.frequency == 0
    ensures e.isActive == d.isActive.GetOr(true)
    ensures ValidEntryData(d) ==> ValidEntry(e)
  {
    CulturalEntry(id, d.isiZuluText, d.englishTranslation, d.partOfSpeech, d.genre,
                  d.culturalContext, d.source, 0, d.isActive.GetOr(true), createdAt)
  }

  /** One `UsageExample` per supplied example, linked to `entryId`, with
      consecutive ids from `firstId`. */
  function ExampleRows(exs: seq<ExampleData>, entryId: nat, firstId: nat): (r: seq<UsageExample>)
    ensures |r| == |exs|
    ensures forall k :: 0 <= k < |r| ==> r[k].id == firstId + k && r[k].entryId == entryId
    ensures forall k :: 0 <= k < |r| ==> ExampleDataOf(r[k]) == exs[k]
  {
    seq(|exs|, k requires 0 <= k < |exs| => UsageExample(firstId + k, entryId, exs[k].isiZuluExample, exs[k].englishExample))
  }

  function ExampleDataOf(x: UsageExample): ExampleData {
    ExampleData(x.isiZuluExample, x.englishExample)
  }

  /** One `AdditionalTranslation` per supplied translation, linked to `entryId`. */
  function TranslationRows(ts: seq<TranslationData>, entryId: nat, firstId: nat): (r: seq<AdditionalTranslation>)
    ensures |r| == |ts|
    ensures forall k :: 0 <= k < |r| ==> r[k].id == firstId + k && r[k].entryId == entryId
    ensures forall k :: 0 <= k < |r| ==> TranslationDataOf(r[k]) == ts[k]
  {
    seq(|ts|, k requires 0 <= k < |ts| => AdditionalTranslation(firstId + k, entryId, ts[k].language, ts[k].translation))
  }

  function TranslationDataOf(t: AdditionalTranslation): TranslationData {
    TranslationData(t.language, t.translation)
  }

  /** A collocation created with only its phrase has `frequency` 1. */
  function NewCollocation(id: nat, entryId: nat, phrase: string): (c: Collocation)
    ensures c.frequency == 1 && c.entryId == entryId && c.phrase == phrase
  {
    Collocation(id, entryId, phrase, 1)
  }

  // ---------------------------------------------------------------------
  // Default orderings

  /** Primary keys grow with the position in the table. */
  predicate IdsIncreasing(es: seq<CulturalEntry>) {
    forall i, j :: 0 <= i < j < |es| ==> es[i].id < es[j].id
  }

  predicate CreationOrdered(es: seq<CulturalEntry>) {
    forall i, j :: 0 <= i < j < |es| ==> es[i].createdAt < es[j].createdAt
  }

  /** `ordering = ['-created_at']` over a table kept in creation order. */
  function NewestFirst(es: seq<CulturalEntry>): seq<CulturalEntry> {
    Reverse(es)
  }

  /** Newest first lists the same rows, each once, by descending creation time. */
  lemma NewestFirstSpec(es: seq<CulturalEntry>)
    requires IdsIncreasing(es) && CreationOrdered(es)
    ensures var r := NewestFirst(es);
      && |r| == |es|
      && (forall e :: e in r <==> e in es)
      && (forall i, j :: 0 <= i < j < |r| ==> r[i].id != r[j].id && r[i].createdAt > r[j].createdAt)
  {
    var r := NewestFirst(es);
    ReverseMembers(es);
    forall i, j | 0 <= i < j < |r| ensures r[i].id != r[j].id && r[i].createdAt > r[j].createdAt {
      assert r[i] == es[|es| - 1 - i] && r[j] == es[|es| - 1 - j];
    }
  }

  /** `CulturalEntry.objects.filter(is_active=True)` in the default
      newest-first order: the queryset of the entry viewset, of the export
      and of every analytics figure. */
  function ActiveEntries(es: seq<CulturalEntry>): (r: seq<CulturalEntry>)
    ensures forall e :: e in r <==> e in es && e.isActive
  {
    var f := Filter(es, (e: CulturalEntry) => e.isActive);
    ReverseMembers(f);
    NewestFirst(f)
  }

  /** `entry.examples.all()`, ordered by `id`. */
  function ExamplesOf(exs: seq<UsageExample>, entryId: nat): seq<UsageExample> {
    Filter(exs, (x: UsageExample) => x.entryId == entryId)
  }

  /** The examples of an entry are exactly the example rows linked to it, by
      ascending id when the table is kept in id order. */
  lemma ExamplesOfSpec(exs: seq<UsageExample>, entryId: nat)
    requires forall i, j :: 0 <= i < j < |exs| ==> exs[i].id < exs[j].id
    ensures forall x :: x in ExamplesOf(exs, entryId) <==> x in exs && x.entryId == entryId
    ensures var r := ExamplesOf(exs, entryId); forall i, j :: 0 <= i < j < |r| ==> r[i].id < r[j].id
  {
    FilterKeepsOrder(exs, (x: UsageExample) => x.entryId == entryId, (a: UsageExample, b: UsageExample) => a.id < b.id);
  }

  /** The translation rows linked to an entry, in table order. */
  function LinkedTranslations(ts: seq<AdditionalTranslation>, entryId: nat): seq<AdditionalTranslation> {
    Filter(ts, (t: AdditionalTranslation) => t.entryId == entryId)
  }

  /** Translations listed by their language string. */
  predicate LanguageBefore(a: AdditionalTranslation, b: AdditionalTranslation) {
    LexLe(a.language, b.language)
  }

  lemma LanguageBeforeTotal()
    ensures TotalPreorder(LanguageBefore)
  {
    forall a: AdditionalTranslation, b: AdditionalTranslation ensures LanguageBefore(a, b) || LanguageBefore(b, a) {
      LexLeTotal(a.language, b.language);
    }
    forall a: AdditionalTranslation, b: AdditionalTranslation, c: AdditionalTranslation
      | LanguageBefore(a, b) && LanguageBefore(b, c) ensures LanguageBefore(a, c) {
      LexLeTrans(a.language, b.language, c.language);
    }
  }

  /** `entry.additional_translations.all()`, ordered by `language`. */
  function TranslationsOf(ts: seq<AdditionalTranslation>, entryId: nat): seq<AdditionalTranslation> {
    LanguageBeforeTotal();
    SortBy(LinkedTranslations(ts, entryId), LanguageBefore)
  }

  /** The translations of an entry are the rows linked to it, one per
      language by the uniqueness constraint, in strictly increasing order of
      the language string, whether or not the language is one of the
      choices. */
  lemma TranslationsOfSpec(ts: seq<AdditionalTranslation>, entryId: nat)
    requires UniqueLanguages(ts)
    ensures var r := TranslationsOf(ts, entryId);
      && (forall t :: t in r <==> t in ts && t.entryId == entryId)
      && (forall i, j :: 0 <= i < j < |r| ==> LexLe(r[i].language, r[j].language))
      && (forall i, j :: 0 <= i < j < |r| ==> r[i].language != r[j].language)
  {
    var p := (t: AdditionalTranslation) => t.entryId == entryId;
    var f := Filter(ts, p);
    var r := TranslationsOf(ts, entryId);
    forall t ensures t in r <==> t in f {
      assert t in r <==> t in multiset(r);
    }
    FilterKeepsOrder(ts, p, (a: AdditionalTranslation, b: AdditionalTranslation) => a.entryId != b.entryId || a.language != b.language);
    forall i, j | 0 <= i < j < |r| ensures r[i].language != r[j].language {
      if r[i].language == r[j].language {
        assert r[i] in multiset(r) && r[j] in multiset(r);
        SameLanguageSameRow(f, entryId, r[i], r[j]);
      }
    }
  }

  /** A language outside the choice list takes its place by spelling:
      `afrikaans` is listed ahead of `isixhosa`. */
  lemma TranslationOutsideChoicesOrdered(x: AdditionalTranslation, y: AdditionalTranslation)
    requires x.entryId == y.entryId && x.language == "isixhosa" && y.language == "afrikaans"
    ensures TranslationsOf([x, y], x.entryId) == [y, x]
  {
    var ts := [x, y];
    var p := (t: AdditionalTranslation) => t.entryId == x.entryId;
    assert ts[1..] == [y] && [y][1..] == [];
    assert Filter([y], p) == [y] + Filter([], p);
    assert LinkedTranslations(ts, x.entryId) == [x, y];
    assert !LexLe(x.language, y.language);
    assert [x, y][..1] == [x];
    assert LinkedTranslations(ts, x.entryId)[..1] == [x];
  }

  /** Within the rows of one entry with unique languages, a language names one row. */
  lemma SameLanguageSameRow(f: seq<AdditionalTranslation>, entryId: nat, a: AdditionalTranslation, b: AdditionalTranslation)
    requires forall i, j :: 0 <= i < j < |f| ==> f[i].entryId != f[j].entryId || f[i].language != f[j].language
    requires a in f && b in f && a.language == b.language && a.entryId == b.entryId
    ensures a == b
  {
    var i :| 0 <= i < |f| && f[i] == a;
    var j :| 0 <= j < |f| && f[j] == b;
  }

  /** `entry.collocations.all()`, ordered by descending `frequency`. */
  function CollocationsOf(cs: seq<Collocation>, entryId: nat): seq<Collocation> {
    SortDesc(Filter(cs, (c: Collocation) => c.entryId == entryId), (c: Collocation) => c.frequency)
  }

  /** The collocations of an entry are its rows, most frequent first. */
  lemma CollocationsOfSpec(cs: seq<Collocation>, entryId: nat)
    ensures var r := CollocationsOf(cs, entryId);
      && (forall c :: c in r <==> c in cs && c.entryId == entryId)
      && (forall i, j :: 0 <= i < j < |r| ==> r[i].frequency >= r[j].frequency)
  {
    var r := CollocationsOf(cs, entryId);
    forall c ensures c in r <==> c in cs && c.entryId == entryId {
      assert c in r <==> c in multiset(r);
    }
  }
}
