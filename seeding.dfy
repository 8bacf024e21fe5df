/** The `add_words_to_dictionaries` management command: for every
    English-Russian dictionary it adds a random choice of up to `--count`
    words from a built-in list of fifty, skipping the words the dictionary
    already has (compared case-insensitively). The iteration order of the
    dictionaries and the random choice are parameters. */
module Seeding {
  import opened Common
  import opened Models
  import opened Serializers
  import opened Views

  /** One entry of the built-in list. */
  datatype Entry = Entry(word: string, translation: string, example: string)

  /** `--count` when it is not given. */
  const DefaultCount: int := 10

  // The built-in list, in its own order, as three columns of two halves.

  const HeadWords: seq<string> := [
    "hello", "world", "book", "water", "friend", "house", "sun", "moon", "star", "dog", "cat",
    "car", "tree", "flower", "bird", "computer", "phone", "music", "food", "time", "day", "night",
    "morning", "evening", "school"
  ]

  const HeadTranslations: seq<string> := [
    "привет", "мир", "книга", "вода", "друг", "дом", "солнце", "луна", "звезда", "собака", "кот",
    "машина", "дерево", "цветок", "птица", "компьютер", "телефон", "музыка", "еда", "время",
    "день", "ночь", "утро", "вечер", "школа"
  ]

  const HeadExamples: seq<string> := [
    "Hello, how are you?", "The world is beautiful", "I love reading books",
    "Please give me some water", "He is my best friend", "I live in a big house",
    "The sun is shining", "The moon is full tonight", "Look at that bright star",
    "My dog is very friendly", "The cat is sleeping", "I drive a red car", "The tree is very tall",
    "Beautiful flowers bloom in spring", "The bird is flying", "I work on my computer",
    "My phone is ringing", "I love listening to music", "The food is delicious",
    "What time is it?", "Have a nice day!", "Good night!", "Good morning!", "Good evening!",
    "I go to school every day"
  ]

  const TailWords: seq<string> := [
    "teacher", "student", "learn", "study", "read", "write", "speak", "listen", "see", "hear",
    "know", "think", "want", "need", "like", "love", "happy", "sad", "big", "small", "good", "bad",
    "new", "old", "beautiful"
  ]

  const TailTranslations: seq<string> := [
    "учитель", "студент", "учить", "изучать", "читать", "писать", "говорить", "слушать", "видеть",
    "слышать", "знать", "думать", "хотеть", "нуждаться", "нравиться", "любить", "счастливый",
    "грустный", "большой", "маленький", "хороший", "плохой", "новый", "старый", "красивый"
  ]

  const TailExamples: seq<string> := [
    "My teacher is very kind", "I am a student", "I learn English", "I study hard",
    "I like to read books", "I write in my diary", "I speak English", "Listen to me carefully",
    "I can see the mountains", "I hear music", "I know the answer", "I think it is good",
    "I want to learn", "I need help", "I like pizza", "I love you", "I am very happy",
    "Why are you sad?", "This is a big house", "A small cat", "Good job!", "This is bad news",
    "I have a new car", "This is an old book", "She is beautiful"
  ]

  const CatalogSize: nat := 50

  /** The entries of three equally long columns, row by row. */
  function Zip(words: seq<string>, translations: seq<string>, examples: seq<string>): (r: seq<Entry>)
    requires |words| == |translations| == |examples|
    ensures |r| == |words|
    ensures forall i :: 0 <= i < |r| ==> r[i] == Entry(words[i], translations[i], examples[i])
  {
    if words == [] then []
    else [Entry(words[0], translations[0], examples[0])] + Zip(words[1..], translations[1..], examples[1..])
  }

  const Catalog: seq<Entry> :=
    Zip(HeadWords + TailWords, HeadTranslations + TailTranslations, HeadExamples + TailExamples)

  /** No two entries share a word. */
  predicate UniqueWords(entries: seq<Entry>) {
    forall i, j :: 0 <= i < j < |entries| ==> entries[i].word != entries[j].word
  }

  lemma HeadWordsDistinct()
    ensures forall i, j :: 0 <= i < j < |HeadWords| ==> HeadWords[i] != HeadWords[j]
  {
  }

  lemma TailWordsDistinct()
    ensures forall i, j :: 0 <= i < j < |TailWords| ==> TailWords[i] != TailWords[j]
  {
  }

  lemma HalvesDistinctLow()
    ensures forall i, j :: 0 <= i < |HeadWords| && 0 <= j < 13 ==> HeadWords[i] != TailWords[j]
  {
  }

  lemma HalvesDistinctHigh()
    ensures forall i, j :: 0 <= i < |HeadWords| && 13 <= j < |TailWords| ==> HeadWords[i] != TailWords[j]
  {
  }

  /** The fifty words of the list are pairwise different. */
  lemma {:induction false} CatalogUniqueWords()
    ensures |Catalog| == CatalogSize
    ensures UniqueWords(Catalog)
  {
    HeadWordsDistinct();
    TailWordsDistinct();
    HalvesDistinctLow();
    HalvesDistinctHigh();
    forall i, j | 0 <= i < j < |Catalog|
      ensures Catalog[i].word != Catalog[j].word
    {
      assert Catalog[i].word == (HeadWords + TailWords)[i];
      assert Catalog[j].word == (HeadWords + TailWords)[j];
      if j < 25 {
        assert HeadWords[i] != HeadWords[j];
      } else if i >= 25 {
        assert TailWords[i - 25] != TailWords[j - 25];
      } else {
        assert HeadWords[i] != TailWords[j - 25];
      }
    }
  }

  // ---------------------------------------------------------------- choice

  /** The entries whose lower-cased word is not excluded, in list order. */
  function Filter(entries: seq<Entry>, excluded: set<string>): (r: seq<Entry>)
    ensures |r| <= |entries|
    ensures forall e :: e in r <==> e in entries && Lower(e.word) !in excluded
  {
    if entries == [] then []
    else (if Lower(entries[0].word) in excluded then [] else [entries[0]]) + Filter(entries[1..], excluded)
  }

  /** Dropping the first entry keeps the words pairwise different. */
  lemma {:induction false} RestUnique(entries: seq<Entry>)
    requires entries != [] && UniqueWords(entries)
    ensures UniqueWords(entries[1..])
  {
    var rest := entries[1..];
    forall i, j | 0 <= i < j < |rest|
      ensures rest[i].word != rest[j].word
    {
      assert rest[i] == entries[i + 1] && rest[j] == entries[j + 1];
    }
  }

  /** An entry put in front of entries with other words keeps the words
      pairwise different. */
  lemma {:induction false} ConsUnique(e: Entry, entries: seq<Entry>)
    requires UniqueWords(entries)
    requires forall x :: x in entries ==> x.word != e.word
    ensures UniqueWords([e] + entries)
  {
    var r := [e] + entries;
    forall i, j | 0 <= i < j < |r|
      ensures r[i].word != r[j].word
    {
      assert r[j] == entries[j - 1];
      if i > 0 {
        assert r[i] == entries[i - 1];
      }
    }
  }

  /** Filtering keeps the words pairwise different. */
  lemma {:induction false} FilterUnique(entries: seq<Entry>, excluded: set<string>)
    requires UniqueWords(entries)
    ensures UniqueWords(Filter(entries, excluded))
  {
    if entries != [] {
      var rest := entries[1..];
      RestUnique(entries);
      FilterUnique(rest, excluded);
      if Lower(entries[0].word) !in excluded {
        forall x | x in Filter(rest, excluded)
          ensures x.word != entries[0].word
        {
          var m :| 0 <= m < |rest| && rest[m] == x;
          assert entries[m + 1] == x;
        }
        ConsUnique(entries[0], Filter(rest, excluded));
        assert Filter(entries, excluded) == [entries[0]] + Filter(rest, excluded);
      } else {
        assert Filter(entries, excluded) == Filter(rest, excluded);
      }
    }
  }

  /** The lower-cased words of some rows. */
  function Lowered(words: map<WordId, Word>): (r: set<string>)
    ensures forall w :: w in words ==> Lower(words[w].word) in r
    ensures forall x :: x in r ==> exists w :: w in words && Lower(words[w].word) == x
  {
    set w | w in words :: Lower(words[w].word)
  }

  /** The words of some rows, as stored. */
  function Texts(words: map<WordId, Word>): (r: set<string>)
    ensures forall w :: w in words ==> words[w].word in r
    ensures forall x :: x in r ==> exists w :: w in words && words[w].word == x
  {
    set w | w in words :: words[w].word
  }

  /** The entries not yet in the dictionary, compared case-insensitively. */
  function Available(words: map<WordId, Word>, id: DictionaryId): seq<Entry> {
    Filter(Catalog, Lowered(WordsOf(words, id)))
  }

  /** The available entries are the catalogue entries whose word the
      dictionary lacks in every case, each word once. */
  lemma AvailableSpec(words: map<WordId, Word>, id: DictionaryId)
    ensures |Available(words, id)| <= CatalogSize
    ensures forall e :: e in Available(words, id) <==> e in Catalog && Lower(e.word) !in Lowered(WordsOf(words, id))
    ensures UniqueWords(Available(words, id))
  {
    CatalogUniqueWords();
    FilterUnique(Catalog, Lowered(WordsOf(words, id)));
  }

  ghost predicate NewTo(entries: seq<Entry>, words: map<WordId, Word>, id: DictionaryId) {
    UniqueWords(entries) &&
    forall i :: 0 <= i < |entries| ==> entries[i].word !in Texts(WordsOf(words, id))
  }

  lemma {:induction false} AvailableIsNew(words: map<WordId, Word>, id: DictionaryId)
    ensures NewTo(Available(words, id), words, id)
  {
    AvailableSpec(words, id);
  }

  /** What `random.sample` promises about the positions it picks: `k`
      different positions of a population of `n`. */
  predicate IsSample(positions: seq<nat>, n: nat, k: nat) {
    |positions| == k &&
    (forall m :: 0 <= m < k ==> positions[m] < n) &&
    (forall m, m' :: 0 <= m < m' < k ==> positions[m] != positions[m'])
  }

  /** A source of random choices: for a dictionary, a population size and
      `k <= n`, the positions chosen. */
  ghost predicate Sampler(sample: (DictionaryId, nat, nat) -> seq<nat>) {
    forall id, n, k :: k <= n ==> IsSample(sample(id, n, k), n, k)
  }

  /** The first positions always make a sample, so a sampler exists. */
  lemma PrefixSampler()
    ensures Sampler((id: DictionaryId, n: nat, k: nat) => seq(k, m => m))
  {
  }

  /** The row `get_or_create` inserts for an entry: the image link empty. */
  function SeedWord(id: DictionaryId, e: Entry): (w: Word)
    ensures w.dictionary == id && w.word == e.word && w.translation == e.translation
    ensures w.imageUrl == "" && w.example == e.example
  {
    Word(id, e.word, e.translation, "", e.example)
  }

  /** The words the first `j` chosen positions name. */
  function Picked(entries: seq<Entry>, positions: seq<nat>, j: nat): (r: set<string>)
    requires j <= |positions| && forall m :: 0 <= m < |positions| ==> positions[m] < |entries|
    ensures forall m :: 0 <= m < j ==> entries[positions[m]].word in r
    ensures forall x :: x in r ==> exists m :: 0 <= m < j && entries[positions[m]].word == x
  {
    set m | 0 <= m < j :: entries[positions[m]].word
  }

  /** The entry at a new position has a word not chosen before. */
  lemma {:induction false} NextIsUnpicked(entries: seq<Entry>, positions: seq<nat>, j: nat)
    requires UniqueWords(entries)
    requires IsSample(positions, |entries|, |positions|) && j < |positions|
    ensures entries[positions[j]].word !in Picked(entries, positions, j)
  {
  }

  lemma {:induction false} PickedStep(entries: seq<Entry>, positions: seq<nat>, j: nat)
    requires j < |positions| && forall m :: 0 <= m < |positions| ==> positions[m] < |entries|
    ensures Picked(entries, positions, j + 1) == Picked(entries, positions, j) + {entries[positions[j]].word}
  {
  }

  // ------------------------------------------------------------ insertion

  /** Inserting a row under a fresh id adds it to its dictionary's rows and
      leaves every other dictionary's rows alone. */
  lemma {:induction false} WordsOfInsert(words: map<WordId, Word>, n: WordId, w: Word)
    requires n !in words
    ensures WordsOf(words[n := w], w.dictionary) == WordsOf(words, w.dictionary)[n := w]
    ensures n !in WordsOf(words, w.dictionary)
    ensures forall other :: other != w.dictionary ==> WordsOf(words[n := w], other) == WordsOf(words, other)
  {
    assert WordsOf(words[n := w], w.dictionary) == WordsOf(words, w.dictionary)[n := w];
    forall other | other != w.dictionary
      ensures WordsOf(words[n := w], other) == WordsOf(words, other)
    {
      assert WordsOf(words[n := w], other) == WordsOf(words, other);
    }
  }

  lemma {:induction false} TextsInsert(words: map<WordId, Word>, n: WordId, w: Word)
    requires n !in words
    ensures Texts(words[n := w]) == Texts(words) + {w.word}
  {
    var t := Texts(words[n := w]);
    forall x | x in t
      ensures x in Texts(words) + {w.word}
    {
      var v :| v in words[n := w] && words[n := w][v].word == x;
      if v != n {
        assert words[v].word == x;
      }
    }
    forall x | x in Texts(words) + {w.word}
      ensures x in t
    {
      if x != w.word {
        var v :| v in words && words[v].word == x;
        assert words[n := w][v] == words[v];
      } else {
        assert words[n := w][n] == w;
      }
    }
  }

  /** The rows the first `j` chosen positions make. */
  function Chosen(id: DictionaryId, entries: seq<Entry>, positions: seq<nat>, j: nat): (r: set<Word>)
    requires j <= |positions| && forall m :: 0 <= m < |positions| ==> positions[m] < |entries|
    ensures forall m :: 0 <= m < j ==> SeedWord(id, entries[positions[m]]) in r
    ensures forall w :: w in r ==> exists m :: 0 <= m < j && SeedWord(id, entries[positions[m]]) == w
  {
    set m | 0 <= m < j :: SeedWord(id, entries[positions[m]])
  }

  lemma {:induction false} ChosenStep(id: DictionaryId, entries: seq<Entry>, positions: seq<nat>, j: nat)
    requires j < |positions| && forall m :: 0 <= m < |positions| ==> positions[m] < |entries|
    ensures Chosen(id, entries, positions, j + 1) == Chosen(id, entries, positions, j) + {SeedWord(id, entries[positions[j]])}
  {
  }

  /** Every row of `before` is in `after`, unchanged. */
  ghost predicate Kept(before: map<WordId, Word>, after: map<WordId, Word>) {
    forall w :: w in before ==> w in after && after[w] == before[w]
  }

  /** Every row `after` adds to `before` is one of `rows`. */
  ghost predicate AddedFrom(before: map<WordId, Word>, after: map<WordId, Word>, rows: set<Word>) {
    forall w :: w in after && w !in before ==> after[w] in rows
  }

  /** No dictionary other than `id` gains or loses a row. */
  ghost predicate OthersUntouched(before: map<WordId, Word>, after: map<WordId, Word>, id: DictionaryId) {
    forall other :: other != id ==> WordsOf(after, other) == WordsOf(before, other)
  }

  /** `after` holds `j` more rows than `before`, all of them in dictionary `id`. */
  ghost predicate Grown(before: map<WordId, Word>, after: map<WordId, Word>, id: DictionaryId, j: nat) {
    |WordsOf(after, id)| == |WordsOf(before, id)| + j && |after| == |before| + j
  }

  /** The words of dictionary `id` are those of `before` and `picked`. */
  ghost predicate TextsGrown(before: map<WordId, Word>, after: map<WordId, Word>, id: DictionaryId, picked: set<string>) {
    Texts(WordsOf(after, id)) == Texts(WordsOf(before, id)) + picked
  }

  /** What `j` rounds of the inner loop have done to the rows: every old row
      kept, every new row one of the first `j` chosen entries in dictionary
      `id`, the other dictionaries untouched, and exactly `j` rows added to
      `id`, holding the words picked so far. */
  ghost predicate SeededSoFar(before: map<WordId, Word>, after: map<WordId, Word>, id: DictionaryId,
                              available: seq<Entry>, positions: seq<nat>, j: nat)
    requires j <= |positions| && forall m :: 0 <= m < |positions| ==> positions[m] < |available|
  {
    Kept(before, after) &&
    AddedFrom(before, after, Chosen(id, available, positions, j)) &&
    OthersUntouched(before, after, id) &&
    Grown(before, after, id, j) &&
    TextsGrown(before, after, id, Picked(available, positions, j))
  }

  lemma SeededStart(before: map<WordId, Word>, id: DictionaryId, available: seq<Entry>, positions: seq<nat>)
    requires forall m :: 0 <= m < |positions| ==> positions[m] < |available|
    ensures SeededSoFar(before, before, id, available, positions, 0)
  {
  }

  /** Some row of dictionary `id` holds exactly the word `x`. */
  predicate Stored(words: map<WordId, Word>, id: DictionaryId, x: string) {
    exists w :: w in words && words[w].dictionary == id && words[w].word == x
  }

  /** Before round `j`, the chosen word is in no row of the dictionary: it was
      not there at the start and differs from every word picked since. */
  lemma {:induction false} SeededNext(before: map<WordId, Word>, mid: map<WordId, Word>, id: DictionaryId,
                                      available: seq<Entry>, positions: seq<nat>, j: nat)
    requires NewTo(available, before, id)
    requires IsSample(positions, |available|, |positions|) && j < |positions|
    requires SeededSoFar(before, mid, id, available, positions, j)
    ensures available[positions[j]].word !in Texts(WordsOf(mid, id))
    ensures !Stored(mid, id, available[positions[j]].word)
  {
    var e := available[positions[j]];
    NextIsUnpicked(available, positions, j);
    assert e.word !in Texts(WordsOf(mid, id));
    forall w | w in mid && mid[w].dictionary == id
      ensures mid[w].word != e.word
    {
      assert w in WordsOf(mid, id);
    }
  }

  lemma {:induction false} KeptStep(before: map<WordId, Word>, mid: map<WordId, Word>, n: WordId, w: Word)
    requires Kept(before, mid) && n !in mid
    ensures Kept(before, mid[n := w])
  {
  }

  lemma {:induction false} AddedFromStep(before: map<WordId, Word>, mid: map<WordId, Word>, rows: set<Word>,
                                         n: WordId, w: Word)
    requires AddedFrom(before, mid, rows)
    ensures AddedFrom(before, mid[n := w], rows + {w})
  {
  }

  lemma {:induction false} InsertStep(before: map<WordId, Word>, mid: map<WordId, Word>, id: DictionaryId, j: nat,
                                      picked: set<string>, n: WordId, w: Word)
    requires OthersUntouched(before, mid, id) && Grown(before, mid, id, j) && TextsGrown(before, mid, id, picked)
    requires n !in mid && w.dictionary == id
    ensures OthersUntouched(before, mid[n := w], id)
    ensures Grown(before, mid[n := w], id, j + 1)
    ensures TextsGrown(before, mid[n := w], id, picked + {w.word})
  {
    WordsOfInsert(mid, n, w);
    TextsInsert(WordsOf(mid, id), n, w);
  }

  /** Round `j` inserts the chosen entry under a fresh id. */
  lemma {:induction false} SeededStep(before: map<WordId, Word>, mid: map<WordId, Word>, id: DictionaryId,
                                      available: seq<Entry>, positions: seq<nat>, j: nat, n: WordId)
    requires j < |positions| && forall m :: 0 <= m < |positions| ==> positions[m] < |available|
    requires SeededSoFar(before, mid, id, available, positions, j)
    requires n !in mid
    ensures SeededSoFar(before, mid[n := SeedWord(id, available[positions[j]])], id, available, positions, j + 1)
  {
    var w := SeedWord(id, available[positions[j]]);
    KeptStep(before, mid, n, w);
    AddedFromStep(before, mid, Chosen(id, available, positions, j), n, w);
    ChosenStep(id, available, positions, j);
    InsertStep(before, mid, id, j, Picked(available, positions, j), n, w);
    PickedStep(available, positions, j);
  }

  /** After all rounds, the rows in explicit terms. */
  lemma {:induction false} SeededAll(before: map<WordId, Word>, after: map<WordId, Word>, id: DictionaryId,
                                     available: seq<Entry>, positions: seq<nat>)
    requires forall m :: 0 <= m < |positions| ==> positions[m] < |available|
    requires SeededSoFar(before, after, id, available, positions, |positions|)
    ensures forall w :: w in before ==> w in after && after[w] == before[w]
    ensures forall w :: w in after && w !in before ==>
      exists m :: 0 <= m < |positions| && after[w] == SeedWord(id, available[positions[m]])
    ensures forall other :: other != id ==> WordsOf(after, other) == WordsOf(before, other)
    ensures |WordsOf(after, id)| == |WordsOf(before, id)| + |positions|
    ensures |after| == |before| + |positions|
  {
    forall w | w in after && w !in before
      ensures exists m :: 0 <= m < |positions| && after[w] == SeedWord(id, available[positions[m]])
    {
      assert after[w] in Chosen(id, available, positions, |positions|);
    }
  }

  // --------------------------------------------------------------- command

  /** `Word.objects.get_or_create(dictionary=..., word=..., defaults=...)`
      for a catalogue entry: the row is inserted only when the dictionary
      holds no row with exactly that word. */
  method GetOrCreateSeedWord(db: Store, id: DictionaryId, e: Entry) returns (created: bool, ghost n: WordId)
    requires db.Valid() && id in db.dictionaries
    modifies db
    ensures db.Valid()
    ensures created <==> !Stored(old(db.words), id, e.word)
    ensures created ==> n !in old(db.words) && db.words == old(db.words)[n := SeedWord(id, e)]
    ensures !created ==> db.words == old(db.words)
    ensures db.users == old(db.users) && db.dictionaries == old(db.dictionaries)
    ensures db.purchases == old(db.purchases) && db.progress == old(db.progress)
  {
    n := 0;
    if Stored(db.words, id, e.word) {
      created := false;
    } else {
      n := db.InsertWord(SeedWord(id, e));
      created := true;
    }
  }


  /** One round of the inner loop. */
  method SeedRound(db: Store, ghost start: map<WordId, Word>, id: DictionaryId,
                   available: seq<Entry>, positions: seq<nat>, j: nat) returns (isNew: bool)
    requires db.Valid() && id in db.dictionaries
    requires NewTo(available, start, id)
    requires IsSample(positions, |available|, |positions|) && j < |positions|
    requires SeededSoFar(start, db.words, id, available, positions, j)
    modifies db
    ensures db.Valid() && isNew
    ensures db.users == old(db.users) && db.dictionaries == old(db.dictionaries)
    ensures db.purchases == old(db.purchases) && db.progress == old(db.progress)
    ensures SeededSoFar(start, db.words, id, available, positions, j + 1)
  {
    SeededNext(start, db.words, id, available, positions, j);
    ghost var before := db.words;
    ghost var n;
    isNew, n := GetOrCreateSeedWord(db, id, available[positions[j]]);
    SeededStep(start, before, id, available, positions, j, n);
  }

  /** The inner loop for one dictionary: `get_or_create` for every chosen
      entry, counting the rows created. Every chosen word is new to the
      dictionary and to the earlier choices, so every entry is created. */
  method SeedDictionary(db: Store, id: DictionaryId, available: seq<Entry>, positions: seq<nat>)
    returns (created: nat)
    requires db.Valid() && id in db.dictionaries
    requires NewTo(available, db.words, id)
    requires IsSample(positions, |available|, |positions|)
    modifies db
    ensures db.Valid()
    ensures created == |positions|
    ensures db.users == old(db.users) && db.dictionaries == old(db.dictionaries)
    ensures db.purchases == old(db.purchases) && db.progress == old(db.progress)
    ensures SeededSoFar(old(db.words), db.words, id, available, positions, |positions|)
  {
    created := 0;
    ghost var start := db.words;
    var j := 0;
    SeededStart(db.words, id, available, positions);
    while j < |positions|
      invariant 0 <= j <= |positions| && created == j
      invariant db.Valid()
      invariant db.users == old(db.users) && db.dictionaries == old(db.dictionaries)
      invariant db.purchases == old(db.purchases) && db.progress == old(db.progress)
      invariant SeededSoFar(start, db.words, id, available, positions, j)
    {
      var isNew := SeedRound(db, start, id, available, positions, j);
      if isNew {
        created := created + 1;
      }
      j := j + 1;
    }
  }

  // ------------------------------------------------------- all dictionaries

  /** The command only seeds dictionaries from English to Russian, compared
      case-insensitively. */
  predicate IsEnRu(d: Dictionary) {
    Lower(d.sourceLang) == "en" && Lower(d.targetLang) == "ru"
  }

  /** How many rows the command creates in a dictionary: as many entries as
      asked for, or every available one when fewer are left; none for a
      dictionary of another language pair. */
  function Expected(words: map<WordId, Word>, d: Dictionary, id: DictionaryId, count: int): nat {
    if IsEnRu(d) && count >= 0 then Min(count, |Available(words, id)|) else 0
  }

  /** A dictionary of the seeded pair gets the requested count, capped by
      what is available; any other dictionary, or a negative count, none. */
  lemma ExpectedSpec(words: map<WordId, Word>, d: Dictionary, id: DictionaryId, count: int)
    ensures !IsEnRu(d) || count < 0 ==> Expected(words, d, id, count) == 0
    ensures IsEnRu(d) && 0 <= count ==>
      Expected(words, d, id, count) <= count && Expected(words, d, id, count) <= |Available(words, id)|
    ensures IsEnRu(d) && 0 <= count ==>
      Expected(words, d, id, count) == count || Expected(words, d, id, count) == |Available(words, id)|
  {
  }

  /** The rows the command creates in the listed dictionaries. */
  function ExpectedTotal(words: map<WordId, Word>, dicts: map<DictionaryId, Dictionary>,
                         ids: seq<DictionaryId>, count: int): (r: nat)
    requires forall m :: 0 <= m < |ids| ==> ids[m] in dicts
    ensures count < 0 ==> r == 0
  {
    if ids == [] then 0
    else
      var last := ids[|ids| - 1];
      ExpectedTotal(words, dicts, ids[..|ids| - 1], count) + Expected(words, dicts[last], last, count)
  }

  /** No dictionary gets more than `count` rows. */
  lemma {:induction false} ExpectedTotalBound(words: map<WordId, Word>, dicts: map<DictionaryId, Dictionary>,
                                              ids: seq<DictionaryId>, count: int)
    requires forall m :: 0 <= m < |ids| ==> ids[m] in dicts
    requires 0 <= count
    ensures ExpectedTotal(words, dicts, ids, count) <= |ids| * count
  {
    if ids != [] {
      var last := ids[|ids| - 1];
      ExpectedTotalBound(words, dicts, ids[..|ids| - 1], count);
      ExpectedSpec(words, dicts[last], last, count);
      assert (|ids| - 1) * count + count == |ids| * count;
    }
  }

  /** A row the command may create: a catalogue entry that was available to
      its dictionary, which is an English to Russian one. */
  ghost predicate FromCatalog(before: map<WordId, Word>, dicts: map<DictionaryId, Dictionary>, row: Word) {
    row.dictionary in dicts && IsEnRu(dicts[row.dictionary]) &&
    exists e :: e in Available(before, row.dictionary) && row == SeedWord(row.dictionary, e)
  }

  /** Every row `after` adds to `before` comes from the catalogue. */
  ghost predicate AddedFromCatalog(before: map<WordId, Word>, after: map<WordId, Word>,
                                   dicts: map<DictionaryId, Dictionary>) {
    forall w :: w in after && w !in before ==> FromCatalog(before, dicts, after[w])
  }

  /** The dictionaries from position `i` on are not seeded yet. */
  ghost predicate NotYet(before: map<WordId, Word>, after: map<WordId, Word>, order: seq<DictionaryId>, i: nat) {
    forall m :: i <= m < |order| ==> WordsOf(after, order[m]) == WordsOf(before, order[m])
  }

  /** The dictionaries before position `i` gained their expected rows. */
  ghost predicate GrownAsExpected(before: map<WordId, Word>, after: map<WordId, Word>,
                                  dicts: map<DictionaryId, Dictionary>, order: seq<DictionaryId>, i: nat, count: int)
    requires i <= |order| && forall m :: 0 <= m < |order| ==> order[m] in dicts
  {
    forall m :: 0 <= m < i ==>
      |WordsOf(after, order[m])| == |WordsOf(before, order[m])| + Expected(before, dicts[order[m]], order[m], count)
  }

  /** What the outer loop has done after `i` dictionaries. */
  ghost predicate DoneUpTo(before: map<WordId, Word>, after: map<WordId, Word>,
                           dicts: map<DictionaryId, Dictionary>, order: seq<DictionaryId>, i: nat, count: int)
    requires i <= |order| && forall m :: 0 <= m < |order| ==> order[m] in dicts
  {
    Kept(before, after) &&
    AddedFromCatalog(before, after, dicts) &&
    NotYet(before, after, order, i) &&
    GrownAsExpected(before, after, dicts, order, i, count) &&
    |after| == |before| + ExpectedTotal(before, dicts, order[..i], count)
  }

  lemma DoneStart(before: map<WordId, Word>, dicts: map<DictionaryId, Dictionary>, order: seq<DictionaryId>, count: int)
    requires forall m :: 0 <= m < |order| ==> order[m] in dicts
    ensures DoneUpTo(before, before, dicts, order, 0, count)
  {
    assert order[..0] == [];
  }

  lemma {:induction false} KeptTrans(a: map<WordId, Word>, b: map<WordId, Word>, c: map<WordId, Word>)
    requires Kept(a, b) && Kept(b, c)
    ensures Kept(a, c)
  {
  }

  /** Rows seeded into the `i`-th dictionary are catalogue rows. */
  lemma {:induction false} CatalogStep(before: map<WordId, Word>, mid: map<WordId, Word>, after: map<WordId, Word>,
                                       dicts: map<DictionaryId, Dictionary>, id: DictionaryId,
                                       positions: seq<nat>)
    requires Kept(mid, after) && AddedFromCatalog(before, mid, dicts)
    requires WordsOf(mid, id) == WordsOf(before, id)
    requires id in dicts && (|positions| > 0 ==> IsEnRu(dicts[id]))
    requires forall m :: 0 <= m < |positions| ==> positions[m] < |Available(mid, id)|
    requires AddedFrom(mid, after, Chosen(id, Available(mid, id), positions, |positions|))
    ensures AddedFromCatalog(before, after, dicts)
  {
    assert Available(mid, id) == Available(before, id);
    forall w | w in after && w !in before
      ensures FromCatalog(before, dicts, after[w])
    {
      if w !in mid {
        var m :| 0 <= m < |positions| && SeedWord(id, Available(mid, id)[positions[m]]) == after[w];
        assert Available(before, id)[positions[m]] in Available(before, id);
      }
    }
  }

  /** Seeding the `i`-th dictionary leaves the later ones alone. */
  lemma {:induction false} NotYetStep(before: map<WordId, Word>, mid: map<WordId, Word>, after: map<WordId, Word>,
                                      order: seq<DictionaryId>, i: nat)
    requires i < |order| && forall m, m' :: 0 <= m < m' < |order| ==> order[m] != order[m']
    requires NotYet(before, mid, order, i) && OthersUntouched(mid, after, order[i])
    ensures NotYet(before, after, order, i + 1)
  {
    forall m | i + 1 <= m < |order|
      ensures WordsOf(after, order[m]) == WordsOf(before, order[m])
    {
      assert order[m] != order[i];
      assert WordsOf(after, order[m]) == WordsOf(mid, order[m]);
    }
  }

  /** Seeding the `i`-th dictionary with its expected number of rows keeps
      the counts of the earlier ones and completes its own. */
  lemma {:induction false} CountStep(before: map<WordId, Word>, mid: map<WordId, Word>, after: map<WordId, Word>,
                                     dicts: map<DictionaryId, Dictionary>, order: seq<DictionaryId>, i: nat,
                                     count: int, k: nat)
    requires i < |order| && forall m :: 0 <= m < |order| ==> order[m] in dicts
    requires forall m, m' :: 0 <= m < m' < |order| ==> order[m] != order[m']
    requires WordsOf(mid, order[i]) == WordsOf(before, order[i])
    requires GrownAsExpected(before, mid, dicts, order, i, count)
    requires OthersUntouched(mid, after, order[i]) && Grown(mid, after, order[i], k)
    requires k == Expected(before, dicts[order[i]], order[i], count)
    ensures GrownAsExpected(before, after, dicts, order, i + 1, count)
  {
    forall m | 0 <= m < i + 1
      ensures |WordsOf(after, order[m])| ==
              |WordsOf(before, order[m])| + Expected(before, dicts[order[m]], order[m], count)
    {
      if m < i {
        assert order[m] != order[i];
        assert WordsOf(after, order[m]) == WordsOf(mid, order[m]);
      }
    }
  }

  lemma {:induction false} TotalStep(words: map<WordId, Word>, dicts: map<DictionaryId, Dictionary>,
                                     order: seq<DictionaryId>, i: nat, count: int)
    requires i < |order| && forall m :: 0 <= m < |order| ==> order[m] in dicts
    ensures ExpectedTotal(words, dicts, order[..i + 1], count) ==
            ExpectedTotal(words, dicts, order[..i], count) + Expected(words, dicts[order[i]], order[i], count)
  {
    assert order[..i + 1][..i] == order[..i];
  }

  /** Seeding the `i`-th dictionary with `|positions|` chosen entries, the
      number it expects, advances the outer loop. */
  lemma {:induction false} DoneStep(before: map<WordId, Word>, mid: map<WordId, Word>, after: map<WordId, Word>,
                                    dicts: map<DictionaryId, Dictionary>, order: seq<DictionaryId>, i: nat,
                                    count: int, positions: seq<nat>)
    requires i < |order| && forall m :: 0 <= m < |order| ==> order[m] in dicts
    requires forall m, m' :: 0 <= m < m' < |order| ==> order[m] != order[m']
    requires DoneUpTo(before, mid, dicts, order, i, count)
    requires |positions| == Expected(before, dicts[order[i]], order[i], count)
    requires |positions| > 0 ==> IsEnRu(dicts[order[i]])
    requires forall m :: 0 <= m < |positions| ==> positions[m] < |Available(mid, order[i])|
    requires SeededSoFar(mid, after, order[i], Available(mid, order[i]), positions, |positions|)
    ensures DoneUpTo(before, after, dicts, order, i + 1, count)
  {
    var id := order[i];
    KeptTrans(before, mid, after);
    CatalogStep(before, mid, after, dicts, id, positions);
    NotYetStep(before, mid, after, order, i);
    CountStep(before, mid, after, dicts, order, i, count, |positions|);
    TotalStep(before, dicts, order, i, count);
  }

  /** The outer loop finished, in explicit terms. */
  lemma {:induction false} DoneAll(before: map<WordId, Word>, after: map<WordId, Word>,
                                   dicts: map<DictionaryId, Dictionary>, order: seq<DictionaryId>, count: int)
    requires forall id :: id in dicts <==> id in order
    requires DoneUpTo(before, after, dicts, order, |order|, count)
    ensures forall w :: w in before ==> w in after && after[w] == before[w]
    ensures forall w :: w in after && w !in before ==> FromCatalog(before, dicts, after[w])
    ensures forall id :: id in dicts ==>
      |WordsOf(after, id)| == |WordsOf(before, id)| + Expected(before, dicts[id], id, count)
    ensures |after| == |before| + ExpectedTotal(before, dicts, order, count)
  {
    assert order[..|order|] == order;
    forall id | id in dicts
      ensures |WordsOf(after, id)| == |WordsOf(before, id)| + Expected(before, dicts[id], id, count)
    {
      var m :| 0 <= m < |order| && order[m] == id;
    }
  }

  /** Which entries are available depends only on the dictionary's own rows. */
  lemma AvailableSame(a: map<WordId, Word>, b: map<WordId, Word>, id: DictionaryId)
    requires WordsOf(a, id) == WordsOf(b, id)
    ensures Available(a, id) == Available(b, id)
  {
  }

  /** A dictionary not seeded yet expects as many rows as the command
      asks for, or as many as are available now. */
  lemma ExpectedHere(start: map<WordId, Word>, mid: map<WordId, Word>, d: Dictionary, id: DictionaryId, count: int)
    requires WordsOf(mid, id) == WordsOf(start, id) && IsEnRu(d) && 0 <= count
    ensures Expected(start, d, id, count) == Min(count, |Available(mid, id)|)
  {
    AvailableSame(mid, start, id);
  }

  /** One round of the outer loop for an English to Russian dictionary, the
      `i`-th of `order`. `failed` when `random.sample` raises. */
  method SeedEnRu(db: Store, ghost start: map<WordId, Word>, order: seq<DictionaryId>, i: nat,
                  count: int, sample: (DictionaryId, nat, nat) -> seq<nat>)
    returns (failed: bool, created: nat)
    requires db.Valid() && i < |order| && forall m :: 0 <= m < |order| ==> order[m] in db.dictionaries
    requires forall m, m' :: 0 <= m < m' < |order| ==> order[m] != order[m']
    requires Sampler(sample) && IsEnRu(db.dictionaries[order[i]])
    requires DoneUpTo(start, db.words, db.dictionaries, order, i, count)
    modifies db
    ensures db.Valid()
    ensures db.users == old(db.users) && db.dictionaries == old(db.dictionaries)
    ensures db.purchases == old(db.purchases) && db.progress == old(db.progress)
    ensures failed <==> count < 0
    ensures failed ==> db.words == old(db.words)
    ensures !failed ==> created == Expected(start, db.dictionaries[order[i]], order[i], count)
    ensures !failed ==> DoneUpTo(start, db.words, db.dictionaries, order, i + 1, count)
  {
    var id := order[i];
    ghost var mid := db.words;
    var available := Available(db.words, id);
    var k := Min(count, |available|);
    if k < 0 {
      return true, 0;
    }
    ExpectedHere(start, mid, db.dictionaries[id], id, count);
    var positions := sample(id, |available|, k);
    AvailableIsNew(db.words, id);
    created := SeedDictionary(db, id, available, positions);
    DoneStep(start, mid, db.words, db.dictionaries, order, i, count, positions);
    failed := false;
  }

  /** A dictionary of another language pair is skipped. */
  lemma {:induction false} SkipStep(before: map<WordId, Word>, mid: map<WordId, Word>,
                                    dicts: map<DictionaryId, Dictionary>, order: seq<DictionaryId>, i: nat, count: int)
    requires i < |order| && forall m :: 0 <= m < |order| ==> order[m] in dicts
    requires forall m, m' :: 0 <= m < m' < |order| ==> order[m] != order[m']
    requires DoneUpTo(before, mid, dicts, order, i, count) && !IsEnRu(dicts[order[i]])
    ensures DoneUpTo(before, mid, dicts, order, i + 1, count)
  {
    SeededStart(mid, order[i], Available(mid, order[i]), []);
    DoneStep(before, mid, mid, dicts, order, i, count, []);
  }

  /** One round of the outer loop: the `i`-th dictionary of `order`, skipped
      unless it is English to Russian. */
  method SeedNextDictionary(db: Store, ghost start: map<WordId, Word>, order: seq<DictionaryId>, i: nat,
                            count: int, sample: (DictionaryId, nat, nat) -> seq<nat>)
    returns (failed: bool, created: nat)
    requires db.Valid() && i < |order| && forall m :: 0 <= m < |order| ==> order[m] in db.dictionaries
    requires forall m, m' :: 0 <= m < m' < |order| ==> order[m] != order[m']
    requires Sampler(sample)
    requires DoneUpTo(start, db.words, db.dictionaries, order, i, count)
    modifies db
    ensures db.Valid()
    ensures db.users == old(db.users) && db.dictionaries == old(db.dictionaries)
    ensures db.purchases == old(db.purchases) && db.progress == old(db.progress)
    ensures failed <==> count < 0 && IsEnRu(db.dictionaries[order[i]])
    ensures failed || count < 0 ==> db.words == old(db.words)
    ensures !failed ==> created == Expected(start, db.dictionaries[order[i]], order[i], count)
    ensures !failed ==> DoneUpTo(start, db.words, db.dictionaries, order, i + 1, count)
  {
    if IsEnRu(db.dictionaries[order[i]]) {
      failed, created := SeedEnRu(db, start, order, i, count, sample);
    } else {
      SkipStep(start, db.words, db.dictionaries, order, i, count);
      failed, created := false, 0;
    }
  }

  /** What the outer loop knows after `i` dictionaries with `total` rows
      added: nothing changed yet if the count is negative, since every
      dictionary passed was of another language pair. */
  ghost predicate OuterState(start: map<WordId, Word>, words: map<WordId, Word>,
                             dicts: map<DictionaryId, Dictionary>, order: seq<DictionaryId>,
                             i: nat, count: int, total: nat)
    requires i <= |order| && forall m :: 0 <= m < |order| ==> order[m] in dicts
  {
    DoneUpTo(start, words, dicts, order, i, count) &&
    total == ExpectedTotal(start, dicts, order[..i], count) &&
    (count < 0 ==> words == start && forall m :: 0 <= m < i ==> !IsEnRu(dicts[order[m]]))
  }

  lemma {:induction false} OuterStep(start: map<WordId, Word>, mid: map<WordId, Word>, after: map<WordId, Word>,
                                     dicts: map<DictionaryId, Dictionary>, order: seq<DictionaryId>,
                                     i: nat, count: int, total: nat, created: nat)
    requires i < |order| && forall m :: 0 <= m < |order| ==> order[m] in dicts
    requires OuterState(start, mid, dicts, order, i, count, total)
    requires DoneUpTo(start, after, dicts, order, i + 1, count)
    requires created == Expected(start, dicts[order[i]], order[i], count)
    requires count < 0 ==> after == mid && !IsEnRu(dicts[order[i]])
    ensures OuterState(start, after, dicts, order, i + 1, count, total + created)
  {
    TotalStep(start, dicts, order, i, count);
  }

  /** The outer loop over `order`. `failed` when `random.sample` raises. */
  method SeedAll(db: Store, order: seq<DictionaryId>, count: int,
                 sample: (DictionaryId, nat, nat) -> seq<nat>) returns (failed: bool, total: nat)
    requires db.Valid() && forall m :: 0 <= m < |order| ==> order[m] in db.dictionaries
    requires forall m, m' :: 0 <= m < m' < |order| ==> order[m] != order[m']
    requires Sampler(sample)
    modifies db
    ensures db.Valid()
    ensures db.users == old(db.users) && db.dictionaries == old(db.dictionaries)
    ensures db.purchases == old(db.purchases) && db.progress == old(db.progress)
    ensures failed ==> count < 0 && db.words == old(db.words)
    ensures failed ==> exists m :: 0 <= m < |order| && IsEnRu(db.dictionaries[order[m]])
    ensures !failed ==> OuterState(old(db.words), db.words, db.dictionaries, order, |order|, count, total)
  {
    ghost var start := db.words;
    total := 0;
    var i := 0;
    DoneStart(start, db.dictionaries, order, count);
    assert order[..0] == [];
    while i < |order|
      invariant 0 <= i <= |order|
      invariant db.Valid()
      invariant db.users == old(db.users) && db.dictionaries == old(db.dictionaries)
      invariant db.purchases == old(db.purchases) && db.progress == old(db.progress)
      invariant OuterState(start, db.words, db.dictionaries, order, i, count, total)
    {
      ghost var mid := db.words;
      var stop, created := SeedNextDictionary(db, start, order, i, count, sample);
      if stop {
        return true, 0;
      }
      OuterStep(start, mid, db.words, db.dictionaries, order, i, count, total, created);
      total := total + created;
      i := i + 1;
    }
    failed := false;
  }

  /** How the command ends: it stops at once when there is no dictionary,
      `random.sample` raises for a negative count at the first English to
      Russian dictionary, and otherwise it reports the rows it added. */
  datatype SeedOutcome = NoDictionaries | SampleFailed | Seeded(total: nat)

  /** `add_words_to_dictionaries`: for every English to Russian dictionary,
      in the order `order` lists them, add `count` catalogue entries it does
      not hold yet (all of them when fewer are left), chosen by `sample`. */
  method AddWordsToDictionaries(db: Store, order: seq<DictionaryId>, count: int,
                                sample: (DictionaryId, nat, nat) -> seq<nat>) returns (outcome: SeedOutcome)
    requires db.Valid()
    requires forall id :: id in db.dictionaries <==> id in order
    requires forall m, m' :: 0 <= m < m' < |order| ==> order[m] != order[m']
    requires Sampler(sample)
    modifies db
    ensures db.Valid()
    ensures db.users == old(db.users) && db.dictionaries == old(db.dictionaries)
    ensures db.purchases == old(db.purchases) && db.progress == old(db.progress)
    ensures outcome == NoDictionaries <==> old(db.dictionaries) == map[]
    ensures outcome == SampleFailed <==>
      old(db.dictionaries) != map[] && count < 0 &&
      exists id :: id in old(db.dictionaries) && IsEnRu(old(db.dictionaries)[id])
    ensures !outcome.Seeded? ==> db.words == old(db.words)
    ensures outcome.Seeded? ==> outcome.total == ExpectedTotal(old(db.words), old(db.dictionaries), order, count)
    ensures forall w :: w in old(db.words) ==> w in db.words && db.words[w] == old(db.words)[w]
    ensures forall w :: w in db.words && w !in old(db.words) ==> FromCatalog(old(db.words), old(db.dictionaries), db.words[w])
    ensures forall id :: id in old(db.dictionaries) && outcome.Seeded? ==>
      |WordsOf(db.words, id)| == |WordsOf(old(db.words), id)| + Expected(old(db.words), old(db.dictionaries)[id], id, count)
    ensures outcome.Seeded? ==> |db.words| == |old(db.words)| + outcome.total
  {
    if db.dictionaries == map[] {
      return NoDictionaries;
    }
    forall m | 0 <= m < |order|
      ensures order[m] in db.dictionaries
    {
      assert order[m] in order;
    }
    var failed, total := SeedAll(db, order, count, sample);
    if failed {
      var m :| 0 <= m < |order| && IsEnRu(db.dictionaries[order[m]]);
      assert order[m] in db.dictionaries;
      return SampleFailed;
    }
    assert order[..|order|] == order;
    if count < 0 {
      forall id | id in db.dictionaries
        ensures !IsEnRu(db.dictionaries[id])
      {
        var m :| 0 <= m < |order| && order[m] == id;
      }
    }
    DoneAll(old(db.words), db.words, db.dictionaries, order, count);
    outcome := Seeded(total);
  }
}
