/** `AnalyticsService`: the word-frequency table, the integer parts of the
    corpus statistics and the activity counts. Every figure is computed over
    the active entries only, read in the default newest-first order. */
module Analytics {
  import opened Wrappers
  import opened Seqs
  import opened Text
  import opened Sorting
  import opened Models

  /** `values_list('isiZulu_text', flat=True)`. */
  function Texts(es: seq<CulturalEntry>): (r: seq<string>)
    ensures |r| == |es|
    ensures forall i :: 0 <= i < |es| ==> r[i] == es[i].isiZuluText
  {
    seq(|es|, i requires 0 <= i < |es| => es[i].isiZuluText)
  }

  // ---------------------------------------------------------------------
  // get_word_frequency

  /** The tokens counted by `get_word_frequency`: the `\b\w+\b` matches of
      the lower-cased, space-joined texts. */
  function Words(entries: seq<CulturalEntry>): seq<string> {
    FindWords(Lower(JoinSpace(Texts(ActiveEntries(entries)))))
  }

  /** How many times `w` occurs in `ws`. */
  function Occurrences(ws: seq<string>, w: string): nat {
    if ws == [] then 0 else (if ws[0] == w then 1 else 0) + Occurrences(ws[1..], w)
  }

  lemma {:induction false} OccurrencesAppend(a: seq<string>, b: seq<string>, w: string)
    ensures Occurrences(a + b, w) == Occurrences(a, w) + Occurrences(b, w)
  {
    if a == [] {
      assert a + b == b;
    } else {
      assert (a + b)[0] == a[0];
      assert (a + b)[1..] == a[1..] + b;
      OccurrencesAppend(a[1..], b, w);
    }
  }

  lemma {:induction false} OccurrencesPositive(ws: seq<string>, w: string)
    requires w in ws
    ensures Occurrences(ws, w) > 0
  {
    if ws[0] != w {
      OccurrencesPositive(ws[1..], w);
    }
  }

  /** The distinct elements of `ws` in order of first occurrence: the key
      order of a `Counter` built from `ws`. */
  function Distinct(ws: seq<string>): (r: seq<string>)
    ensures NoDup(r)
    ensures forall w :: w in r <==> w in ws
  {
    if ws == [] then []
    else
      var init, last := ws[..|ws| - 1], ws[|ws| - 1];
      assert ws == init + [last];
      var d := Distinct(init);
      if last in d then d else d + [last]
  }

  /** `Counter(ws)` as its items: each distinct word with its count. */
  function Tally(ws: seq<string>): (r: seq<(string, nat)>)
    ensures |r| == |Distinct(ws)|
  {
    var d := Distinct(ws);
    seq(|d|, i requires 0 <= i < |d| => (d[i], Occurrences(ws, d[i])))
  }

  function CountOf(p: (string, nat)): int {
    p.1
  }

  /** `Counter.most_common(n)`: the items by descending count, equal counts
      in insertion order, cut to the first `n` (none when `n` is negative). */
  function MostCommon(counts: seq<(string, nat)>, n: int): seq<(string, nat)> {
    Take(SortDesc(counts, CountOf), n)
  }

  /** `get_word_frequency(limit)`: the word/count pairs of the resulting
      dictionary, in its order. */
  function WordFrequency(entries: seq<CulturalEntry>, limit: int): (r: seq<(string, nat)>)
    ensures |r| <= |Distinct(Words(entries))|
    ensures limit >= 0 ==> |r| <= limit
  {
    MostCommon(Tally(Words(entries)), limit)
  }

  /** A prefix of a list sorted by descending count is sorted, and every
      item after it counts no more than its last item. */
  lemma SortedPrefix(s: seq<(string, nat)>, m: nat)
    requires SortedDesc(s, CountOf) && m <= |s|
    ensures forall i, j :: 0 <= i < j < m ==> s[i].1 >= s[j].1
    ensures forall x :: x in s && x !in s[..m] && m > 0 ==> x.1 <= s[m - 1].1
  {
    forall i, j | 0 <= i < j < m ensures s[i].1 >= s[j].1 {
      assert CountOf(s[i]) >= CountOf(s[j]);
    }
    forall x | x in s && x !in s[..m] && m > 0 ensures x.1 <= s[m - 1].1 {
      var j :| 0 <= j < |s| && s[j] == x;
      assert CountOf(s[m - 1]) >= CountOf(s[j]);
    }
  }

  /** `most_common(n)` keeps at most `n` items, each one of the given items,
      in non-increasing count order, and every item it leaves out counts no
      more than the last one it keeps; with `n` at least the number of items
      it keeps them all. */
  lemma MostCommonSpec(counts: seq<(string, nat)>, n: int)
    ensures var r := MostCommon(counts, n);
      && |r| == (if n <= 0 then 0 else if n < |counts| then n else |counts|)
      && (forall x :: x in r ==> x in counts)
      && (forall i, j :: 0 <= i < j < |r| ==> r[i].1 >= r[j].1)
      && (NoDup(counts) ==> NoDup(r))
      && (forall x :: x in counts && x !in r && |r| > 0 ==> x.1 <= r[|r| - 1].1)
      && (n >= |counts| ==> multiset(r) == multiset(counts))
  {
    var s := SortDesc(counts, CountOf);
    var r := Take(s, n);
    assert r == s[..|r|];
    SortedPrefix(s, |r|);
    assert forall x :: x in counts <==> x in s by {
      forall x ensures x in counts <==> x in s {
        assert x in counts <==> x in multiset(counts);
        assert x in s <==> x in multiset(s);
      }
    }
    if n >= |counts| {
      assert r == s;
    }
  }

  /** A word: a non-empty run of lower-case ASCII letters, digits and
      underscores. */
  predicate IsLowerWord(w: string) {
    |w| > 0 && forall k :: 0 <= k < |w| ==> IsWordChar(w[k]) && !IsUpper(w[k])
  }

  /** Every token taken from a lower-cased text is a lower-case word. */
  lemma WordsAreLower(entries: seq<CulturalEntry>)
    ensures forall w :: w in Words(entries) ==> IsLowerWord(w)
  {
    var text := JoinSpace(Texts(ActiveEntries(entries)));
    LowerIsLower(text);
    RunsChars(Lower(text), [], IsWordChar, (c: char) => !IsUpper(c));
  }

  /** The items of `Counter(ws)`: one per distinct word, each with its
      number of occurrences. */
  lemma TallySpec(ws: seq<string>)
    ensures var t := Tally(ws);
      && NoDup(t)
      && (forall p :: p in t ==> p.0 in ws && p.1 == Occurrences(ws, p.0) > 0)
      && (forall w :: w in ws ==> (w, Occurrences(ws, w)) in t)
  {
    var d := Distinct(ws);
    var t := Tally(ws);
    forall i, j | 0 <= i < j < |t| ensures t[i] != t[j] {
      assert t[i].0 == d[i] && t[j].0 == d[j];
    }
    forall p | p in t ensures p.0 in ws && p.1 == Occurrences(ws, p.0) > 0 {
      var j :| 0 <= j < |t| && t[j] == p;
      assert d[j] in d;
      OccurrencesPositive(ws, d[j]);
    }
    forall w | w in ws ensures (w, Occurrences(ws, w)) in t {
      var j :| 0 <= j < |d| && d[j] == w;
      assert t[j] == (w, Occurrences(ws, w));
    }
  }

  /** Each item `most_common` keeps from `Counter(ws)` is a word of `ws`
      with its number of occurrences, and no word is kept twice. */
  lemma MostCommonOfTally(ws: seq<string>, n: int)
    ensures var r := MostCommon(Tally(ws), n);
      && (forall k :: 0 <= k < |r| ==> r[k].0 in ws && r[k].1 == Occurrences(ws, r[k].0) > 0)
      && (forall i, j :: 0 <= i < j < |r| ==> r[i].0 != r[j].0)
  {
    var r := MostCommon(Tally(ws), n);
    TallySpec(ws);
    MostCommonSpec(Tally(ws), n);
    forall k | 0 <= k < |r| ensures r[k].0 in ws && r[k].1 == Occurrences(ws, r[k].0) > 0 {
      assert r[k] in r;
    }
    forall i, j | 0 <= i < j < |r| ensures r[i].0 != r[j].0 {
      assert r[i] in r && r[j] in r;
    }
  }

  /** `get_word_frequency` returns `limit` distinct lower-case words, or
      every distinct word when there are fewer, each with its exact number
      of occurrences, by non-increasing count. */
  lemma WordFrequencySpec(entries: seq<CulturalEntry>, limit: int)
    ensures var r, ws := WordFrequency(entries, limit), Words(entries);
      && |r| == (if limit <= 0 then 0 else if limit < |Distinct(ws)| then limit else |Distinct(ws)|)
      && (forall k :: 0 <= k < |r| ==> IsLowerWord(r[k].0) && r[k].1 == Occurrences(ws, r[k].0) > 0)
      && (forall i, j :: 0 <= i < j < |r| ==> r[i].0 != r[j].0 && r[i].1 >= r[j].1)
  {
    var ws := Words(entries);
    MostCommonSpec(Tally(ws), limit);
    MostCommonOfTally(ws, limit);
    WordsAreLower(entries);
  }

  /** One word of `ws` left out of `most_common(n)` occurs no more often
      than the last word kept. */
  lemma LeftOutWord(ws: seq<string>, n: int, w: string)
    requires w in ws
    requires var r := MostCommon(Tally(ws), n); |r| > 0 && forall k :: 0 <= k < |r| ==> r[k].0 != w
    ensures var r := MostCommon(Tally(ws), n); Occurrences(ws, w) <= r[|r| - 1].1
  {
    var r := MostCommon(Tally(ws), n);
    TallySpec(ws);
    MostCommonSpec(Tally(ws), n);
    assert (w, Occurrences(ws, w)) !in r;
  }

  /** With `n` at least the number of distinct words, `most_common(n)` lists
      every word of `ws`. */
  lemma KeptWord(ws: seq<string>, n: int, w: string)
    requires w in ws && n >= |Distinct(ws)|
    ensures var r := MostCommon(Tally(ws), n); exists k :: 0 <= k < |r| && r[k].0 == w
  {
    var r := MostCommon(Tally(ws), n);
    TallySpec(ws);
    MostCommonSpec(Tally(ws), n);
    var p := (w, Occurrences(ws, w));
    assert p in multiset(r);
    var k :| 0 <= k < |r| && r[k] == p;
  }

  /** `get_word_frequency` keeps the most frequent words: every word it
      leaves out occurs no more often than the last it keeps, and a limit at
      least the number of distinct words keeps them all. */
  lemma WordFrequencyKeepsMostCommon(entries: seq<CulturalEntry>, limit: int)
    ensures var r, ws := WordFrequency(entries, limit), Words(entries);
      && (forall w :: w in ws && |r| > 0 && (forall k :: 0 <= k < |r| ==> r[k].0 != w) ==>
            Occurrences(ws, w) <= r[|r| - 1].1)
      && (limit >= |Distinct(ws)| ==> forall w :: w in ws ==> exists k :: 0 <= k < |r| && r[k].0 == w)
  {
    var ws := Words(entries);
    var r := WordFrequency(entries, limit);
    forall w | w in ws && |r| > 0 && (forall k :: 0 <= k < |r| ==> r[k].0 != w)
      ensures Occurrences(ws, w) <= r[|r| - 1].1
    {
      LeftOutWord(ws, limit, w);
    }
    if limit >= |Distinct(ws)| {
      forall w | w in ws ensures exists k :: 0 <= k < |r| && r[k].0 == w {
        KeptWord(ws, limit, w);
      }
    }
  }

  /** The occurrences of `w` in each text, added up. */
  function OccurrencesInTexts(texts: seq<string>, w: string): nat {
    if texts == [] then 0 else Occurrences(FindWords(Lower(texts[0])), w) + OccurrencesInTexts(texts[1..], w)
  }

  /** Joining the texts on a space neither merges nor splits words: a word's
      count in the joined text is the sum of its counts in the single texts. */
  lemma {:induction false} OccurrencesOfJoin(texts: seq<string>, w: string)
    ensures Occurrences(FindWords(Lower(JoinSpace(texts))), w) == OccurrencesInTexts(texts, w)
  {
    if texts == [] {
      assert Lower([]) == [];
    } else {
      FindWordsJoin(texts);
      var rest := if |texts| == 1 then [] else FindWords(Lower(JoinSpace(texts[1..])));
      OccurrencesAppend(FindWords(Lower(texts[0])), rest, w);
      if |texts| > 1 {
        OccurrencesOfJoin(texts[1..], w);
      }
    }
  }

  /** Each count of `get_word_frequency` is the word's number of occurrences
      across the texts of the active entries. */
  lemma WordCountsPerEntry(entries: seq<CulturalEntry>, limit: int, k: nat)
    requires k < |WordFrequency(entries, limit)|
    ensures var p := WordFrequency(entries, limit)[k];
      p.1 == OccurrencesInTexts(Texts(ActiveEntries(entries)), p.0)
  {
    WordFrequencySpec(entries, limit);
    OccurrencesOfJoin(Texts(ActiveEntries(entries)), WordFrequency(entries, limit)[k].0);
  }

  // ---------------------------------------------------------------------
  // get_corpus_statistics

  /** The integer figures of `get_corpus_statistics`. `maxFrequency` is
      `None` on an empty corpus, as the `Max` aggregate is. */
  datatype CorpusStats = CorpusStats(
    totalEntries: nat,
    totalProverbs: nat,
    totalIdioms: nat,
    totalNarratives: nat,
    totalSongs: nat,
    maxFrequency: Option<nat>,
    totalWords: nat,
    uniqueWords: nat)

  function GenreIs(g: string): CulturalEntry -> bool {
    (e: CulturalEntry) => e.genre == g
  }

  /** `Count('id', filter=Q(genre=g))`. */
  function GenreCount(es: seq<CulturalEntry>, g: string): nat {
    |Filter(es, GenreIs(g))|
  }

  /** `Max('frequency')`: the largest counter, or `None` when there are no rows. */
  function MaxFrequency(es: seq<CulturalEntry>): (r: Option<nat>)
    ensures r.None? <==> es == []
    ensures r.Some? ==> forall i :: 0 <= i < |es| ==> es[i].frequency <= r.value
    ensures r.Some? ==> exists i :: 0 <= i < |es| && es[i].frequency == r.value
  {
    if es == [] then None
    else
      var rest := MaxFrequency(es[1..]);
      if rest.None? || es[0].frequency >= rest.value then Some(es[0].frequency)
      else
        assert exists i :: 1 <= i < |es| && es[i].frequency == rest.value by {
          var j :| 0 <= j < |es[1..]| && es[1..][j].frequency == rest.value;
          assert es[j + 1] == es[1..][j];
        }
        rest
  }

  /** `sum(len(text.split()) for text in texts)`. */
  function TotalWords(texts: seq<string>): nat {
    if texts == [] then 0 else |Split(texts[0])| + TotalWords(texts[1..])
  }

  /** The tokens of `text.lower().split()` for every text, in order. */
  function LowerTokens(texts: seq<string>): seq<string> {
    if texts == [] then [] else Split(Lower(texts[0])) + LowerTokens(texts[1..])
  }

  /** `len(set(word for text in texts for word in text.lower().split()))`. */
  function UniqueWords(texts: seq<string>): nat {
    |Elems(LowerTokens(texts))|
  }

  /** `get_corpus_statistics`: the figures of the active entries. There is
      a highest frequency exactly when there is an active entry, and never
      more distinct lower-cased words than words. */
  function CorpusStatistics(entries: seq<CulturalEntry>): (r: CorpusStats)
    ensures r.totalEntries <= |entries|
    ensures r.maxFrequency.None? <==> r.totalEntries == 0
    ensures r.maxFrequency.Some? ==> forall e :: e in entries && e.isActive ==> e.frequency <= r.maxFrequency.value
    ensures r.uniqueWords <= r.totalWords
  {
    var active := ActiveEntries(entries);
    var texts := Texts(active);
    LowerTokensCount(texts);
    ElemsCard(LowerTokens(texts));
    CorpusStats(
      |active|,
      GenreCount(active, "proverb"),
      GenreCount(active, "idiom"),
      GenreCount(active, "narrative"),
      GenreCount(active, "song"),
      MaxFrequency(active),
      TotalWords(texts),
      UniqueWords(texts))
  }

  /** Lower-casing keeps the token count of every text. */
  lemma {:induction false} LowerTokensCount(texts: seq<string>)
    ensures |LowerTokens(texts)| == TotalWords(texts)
  {
    if texts != [] {
      SplitLower(texts[0]);
      LowerTokensCount(texts[1..]);
    }
  }

  /** A word is counted as unique exactly when it is the lower-cased form of
      a whitespace token of one of the texts. */
  lemma {:induction false} LowerTokensMembers(texts: seq<string>, w: string)
    ensures w in LowerTokens(texts) <==> exists k :: 0 <= k < |texts| && w in LowerAll(Split(texts[k]))
  {
    if texts != [] {
      SplitLower(texts[0]);
      LowerTokensMembers(texts[1..], w);
      if w in LowerTokens(texts[1..]) {
        var k :| 0 <= k < |texts[1..]| && w in LowerAll(Split(texts[1..][k]));
        assert texts[k + 1] == texts[1..][k];
      }
      if exists k :: 0 <= k < |texts| && w in LowerAll(Split(texts[k])) {
        var k :| 0 <= k < |texts| && w in LowerAll(Split(texts[k]));
        if k > 0 {
          assert texts[1..][k - 1] == texts[k];
        }
      }
    }
  }

  /** The four genre tallies count disjoint sets of active entries, so they
      add up to at most the number of active entries. */
  lemma GenreTalliesBounded(entries: seq<CulturalEntry>)
    ensures var s := CorpusStatistics(entries);
      s.totalProverbs + s.totalIdioms + s.totalNarratives + s.totalSongs <= s.totalEntries
  {
    var es := ActiveEntries(entries);
    var two := (e: CulturalEntry) => e.genre == "proverb" || e.genre == "idiom";
    var three := (e: CulturalEntry) => two(e) || e.genre == "narrative";
    var four := (e: CulturalEntry) => three(e) || e.genre == "song";
    FilterDisjointUnion(es, GenreIs("proverb"), GenreIs("idiom"), two);
    FilterDisjointUnion(es, two, GenreIs("narrative"), three);
    FilterDisjointUnion(es, three, GenreIs("song"), four);
  }

  // ---------------------------------------------------------------------
  // get_usage_statistics

  datatype UsageStats = UsageStats(recentActivities: nat, totalSearches: nat, totalViews: nat)

  function ActionIs(a: string): ActivityLog -> bool {
    (l: ActivityLog) => l.action == a
  }

  /** `get_usage_statistics`: `action__in=['search', 'view']` counts each
      search and each view once. */
  function UsageStatistics(logs: seq<ActivityLog>): (r: UsageStats)
    ensures r.recentActivities == r.totalSearches + r.totalViews
    ensures r.recentActivities <= |logs|
  {
    FilterDisjointUnion(logs, ActionIs("search"), ActionIs("view"), (l: ActivityLog) => l.action in ["search", "view"]);
    UsageStats(
      |Filter(logs, (l: ActivityLog) => l.action in ["search", "view"])|,
      |Filter(logs, ActionIs("search"))|,
      |Filter(logs, ActionIs("view"))|)
  }
}
