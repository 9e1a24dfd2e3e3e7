/**
 * The word-frequency panel: the tokens of all reviews are gathered into one
 * corpus, counted in an insertion-ordered counting dictionary, and the ten
 * most common are unpacked into a word column and a count column.
 */
module WordFrequency {
  import opened Seqs
  import opened Tokenizer

  /** The corpus: the tokens of every review text, review by review, in record order. */
  function AllWords(texts: seq<string>): seq<string> {
    if texts == [] then []
    else AllWords(texts[..|texts| - 1]) + Tokenize(texts[|texts| - 1])
  }

  /** The number of tokens of each review, added up. */
  function TokenTotal(texts: seq<string>): nat {
    if texts == [] then 0 else |Tokenize(texts[0])| + TokenTotal(texts[1..])
  }

  /** Gathers the corpus by extending one list with the tokens of each review in turn. */
  method BuildCorpus(texts: seq<string>) returns (allWords: seq<string>)
    ensures allWords == AllWords(texts)
  {
    allWords := [];
    for i := 0 to |texts|
      invariant allWords == AllWords(texts[..i])
    {
      assert texts[..i + 1][..i] == texts[..i];
      allWords := allWords + Tokenize(texts[i]);
    }
    assert texts[..|texts|] == texts;
  }

  /** The corpus of two batches of reviews is the corpus of the first followed by that of the second. */
  lemma {:induction false} AllWordsAppend(a: seq<string>, b: seq<string>)
    ensures AllWords(a + b) == AllWords(a) + AllWords(b)
    decreases |b|
  {
    if b == [] {
      assert a + b == a;
    } else {
      var init, last := b[..|b| - 1], b[|b| - 1];
      assert (a + b)[..|a + b| - 1] == a + init && (a + b)[|a + b| - 1] == last;
      var x, y, t := AllWords(a), AllWords(init), Tokenize(last);
      assert AllWords(a + b) == AllWords(a + init) + t;
      AllWordsAppend(a, init);
      assert AllWords(b) == y + t;
      assert (x + y) + t == x + (y + t);
    }
  }

  /** The corpus holds as many words as the reviews have tokens together. */
  lemma {:induction false} AllWordsLength(texts: seq<string>)
    ensures |AllWords(texts)| == TokenTotal(texts)
  {
    if texts != [] {
      assert texts == [texts[0]] + texts[1..];
      AllWordsAppend([texts[0]], texts[1..]);
      assert AllWords([texts[0]]) == Tokenize(texts[0]) by {
        assert [texts[0]][..0] == [];
      }
      AllWordsLength(texts[1..]);
    }
  }

  /** Every word of the corpus is a token: a non-empty run of letters `a`-`z`. */
  lemma {:induction false} AllWordsAreTokens(texts: seq<string>)
    ensures forall i :: 0 <= i < |AllWords(texts)| ==> IsToken(AllWords(texts)[i])
  {
    if texts != [] {
      var init := texts[..|texts| - 1];
      AllWordsAreTokens(init);
      var a, t := AllWords(init), Tokenize(texts[|texts| - 1]);
      assert forall i :: |a| <= i < |a| + |t| ==> (a + t)[i] == t[i - |a|];
    }
  }

  /** The counting dictionary's content: each word of `words` mapped to its number of occurrences. */
  function CountsOf(words: seq<string>): map<string, nat> {
    map w | w in words :: multiset(words)[w]
  }

  /**
   * The counting dictionary built from `words`: `counts` maps each word to
   * its number of occurrences and `keys` lists the words in the order they
   * were first inserted.
   */
  method CountWords(words: seq<string>) returns (counts: map<string, nat>, keys: seq<string>)
    ensures counts == CountsOf(words)
    ensures keys == Distinct(words)
  {
    counts, keys := map[], [];
    for i := 0 to |words|
      invariant counts == CountsOf(words[..i])
      invariant keys == Distinct(words[..i])
    {
      var w := words[i];
      CountStep(words, i);
      if w !in counts {
        keys := keys + [w];
      }
      counts := counts[w := (if w in counts then counts[w] else 0) + 1];
    }
    assert words[..|words|] == words;
  }

  /** What counting the word at position `i` does to the counter of the words before it. */
  lemma CountStep(words: seq<string>, i: nat)
    requires i < |words|
    ensures var w, c := words[i], CountsOf(words[..i]);
      && (w in c <==> w in words[..i])
      && CountsOf(words[..i + 1]) == c[w := (if w in c then c[w] else 0) + 1]
      && Distinct(words[..i + 1]) == if w in c then Distinct(words[..i]) else Distinct(words[..i]) + [words[i]]
  {
    assert words[..i + 1] == words[..i] + [words[i]];
    CountsOfSnoc(words[..i], words[i]);
    DistinctSnoc(words[..i], words[i]);
  }

  /** Counting one more word adds one to its count, or enters it with count 1. */
  lemma CountsOfSnoc(words: seq<string>, w: string)
    ensures w in CountsOf(words) <==> w in words
    ensures CountsOf(words + [w]) ==
      CountsOf(words)[w := (if w in words then CountsOf(words)[w] else 0) + 1]
  {
    var before, after := CountsOf(words), CountsOf(words + [w]);
    assert multiset(words + [w]) == multiset(words) + multiset{w};
    assert forall v :: v in words + [w] <==> v in words || v == w;
    assert w !in words ==> multiset(words)[w] == 0;
  }

  /** A counting dictionary: its keys listed once each, in insertion order. */
  ghost predicate ValidCounter(counts: map<string, nat>, keys: seq<string>) {
    NoDuplicates(keys) && forall w :: w in counts <==> w in keys
  }

  /**
   * `a` is listed before `b` by most_common: a higher count, or the same
   * count and inserted earlier.
   */
  predicate Outranks(counts: map<string, nat>, keys: seq<string>, a: string, b: string)
    requires a in counts && b in counts && a in keys && b in keys
  {
    counts[a] > counts[b] || (counts[a] == counts[b] && FirstIndex(keys, a) < FirstIndex(keys, b))
  }

  function Min(a: nat, b: nat): nat { if a < b then a else b }

  /** The words of a list of (word, count) pairs. */
  function Words(top: seq<(string, nat)>): (ws: seq<string>)
    ensures |ws| == |top|
  {
    seq(|top|, i requires 0 <= i < |top| => top[i].0)
  }

  /**
   * `top` is the answer of most_common(n): the min(n, number of keys)
   * highest-ranking entries with their exact counts, no word twice, in rank
   * order, and no word left out that ranks above one taken.
   */
  predicate IsMostCommon(counts: map<string, nat>, keys: seq<string>, n: nat, top: seq<(string, nat)>)
    requires ValidCounter(counts, keys)
  {
    && |top| == Min(n, |keys|)
    && (forall i :: 0 <= i < |top| ==> top[i].0 in keys && top[i].1 == counts[top[i].0])
    && NoDuplicates(Words(top))
    && (forall i, j :: 0 <= i < j < |top| ==> Outranks(counts, keys, top[i].0, top[j].0))
    && (forall i, w :: 0 <= i < |top| && w in keys && w !in Words(top) ==>
          Outranks(counts, keys, top[i].0, w))
  }

  /**
   * One selection step of most_common: the position of the first key, in
   * insertion order, with the highest count among the keys not yet taken.
   * It outranks every other key not yet taken.
   */
  method SelectBest(counts: map<string, nat>, keys: seq<string>, taken: seq<string>) returns (best: nat)
    requires ValidCounter(counts, keys) && |taken| < |keys|
    ensures best < |keys| && keys[best] !in taken
    ensures forall v :: v in keys && v != keys[best] && v !in taken ==>
              Outranks(counts, keys, keys[best], v)
  {
    FirstIndexOfDistinct(keys);
    ghost var free := Pigeonhole(keys, taken);
    var b := -1;
    for j := 0 to |keys|
      invariant -1 <= b < j
      invariant b == -1 ==> forall k :: 0 <= k < j ==> keys[k] in taken
      invariant b != -1 ==> keys[b] !in taken
      invariant b != -1 ==> forall k :: 0 <= k < j && k != b && keys[k] !in taken ==>
                  Outranks(counts, keys, keys[b], keys[k])
    {
      if keys[j] !in taken && (b == -1 || counts[keys[j]] > counts[keys[b]]) {
        b := j;
      }
    }
    assert keys[free] !in taken;
    best := b;
    forall v | v in keys && v != keys[best] && v !in taken
      ensures Outranks(counts, keys, keys[best], v)
    {
      var k := FirstIndex(keys, v);
      assert keys[k] == v;
    }
  }

  /**
   * most_common(n): repeatedly takes, among the keys not yet taken, the
   * first one in insertion order with the highest count, until n entries
   * are taken or no key is left.
   */
  method MostCommon(counts: map<string, nat>, keys: seq<string>, n: nat) returns (top: seq<(string, nat)>)
    requires ValidCounter(counts, keys)
    ensures IsMostCommon(counts, keys, n, top)
  {
    top := [];
    while |top| < n && |top| < |keys|
      invariant |top| <= n && |top| <= |keys|
      invariant forall i :: 0 <= i < |top| ==> top[i].0 in keys && top[i].1 == counts[top[i].0]
      invariant forall i, j :: 0 <= i < j < |top| ==> Outranks(counts, keys, top[i].0, top[j].0)
      invariant forall i, w :: 0 <= i < |top| && w in keys && w !in Words(top) ==>
                  Outranks(counts, keys, top[i].0, w)
      decreases |keys| - |top|
    {
      var taken := Words(top);
      var best := SelectBest(counts, keys, taken);
      var w := keys[best];
      top := top + [(w, counts[w])];
      assert Words(top) == taken + [w];
    }
    forall i, j | 0 <= i < j < |top| ensures Words(top)[i] != Words(top)[j] {
      assert Outranks(counts, keys, top[i].0, top[j].0);
    }
  }

  /**
   * The result of most_common(n) is determined: two lists that both meet
   * IsMostCommon are equal. So IsMostCommon pins down the stable
   * descending-count ordering, cut after n entries.
   */
  lemma MostCommonUnique(counts: map<string, nat>, keys: seq<string>, n: nat,
                         top1: seq<(string, nat)>, top2: seq<(string, nat)>)
    requires ValidCounter(counts, keys)
    requires IsMostCommon(counts, keys, n, top1) && IsMostCommon(counts, keys, n, top2)
    ensures top1 == top2
  {
    var i := 0;
    while i < |top1|
      invariant i <= |top1|
      invariant forall p :: 0 <= p < i ==> top1[p] == top2[p]
    {
      MostCommonStep(counts, keys, n, top1, top2, i);
      i := i + 1;
    }
  }

  /**
   * In a list meeting IsMostCommon, the entry at position `i` is a key `a`
   * absent from the positions before `i`, or outranks it.
   */
  lemma RankAgainst(counts: map<string, nat>, keys: seq<string>, n: nat,
                    top: seq<(string, nat)>, i: nat, a: string)
    requires ValidCounter(counts, keys) && IsMostCommon(counts, keys, n, top)
    requires i < |top| && a in keys
    requires forall p :: 0 <= p < i ==> top[p].0 != a
    ensures a == top[i].0 || Outranks(counts, keys, top[i].0, a)
  {
    var ws := Words(top);
    if a in ws {
      var j := FirstIndex(ws, a);
      if j > i {
        assert Outranks(counts, keys, top[i].0, top[j].0);
      }
    }
  }

  /** Two lists meeting IsMostCommon that agree before position `i` also agree at `i`. */
  lemma MostCommonStep(counts: map<string, nat>, keys: seq<string>, n: nat,
                       top1: seq<(string, nat)>, top2: seq<(string, nat)>, i: nat)
    requires ValidCounter(counts, keys)
    requires IsMostCommon(counts, keys, n, top1) && IsMostCommon(counts, keys, n, top2)
    requires i < |top1| && forall p :: 0 <= p < i ==> top1[p] == top2[p]
    ensures top1[i] == top2[i]
  {
    var a, b := top1[i].0, top2[i].0;
    assert forall p :: 0 <= p < i ==> top1[p].0 != a by {
      assert forall p :: 0 <= p < i ==> Words(top1)[p] == top1[p].0;
    }
    assert forall p :: 0 <= p < i ==> top2[p].0 != b by {
      assert forall p :: 0 <= p < i ==> Words(top2)[p] == top2[p].0;
    }
    RankAgainst(counts, keys, n, top2, i, a);
    RankAgainst(counts, keys, n, top1, i, b);
  }

  /** Why the word-frequency columns could not be unpacked. */
  datatype UnpackError = NotEnoughValuesToUnpack

  datatype Result<T> = Success(value: T) | Failure(error: UnpackError)

  /** The two columns of the word-frequency chart. */
  datatype WordChart = WordChart(words: seq<string>, counts: seq<nat>)

  /**
   * `a` ranks before `b` in the corpus: it occurs more often, or as often
   * and first occurs earlier.
   */
  predicate RanksBefore(allWords: seq<string>, a: string, b: string)
    requires a in allWords && b in allWords
  {
    var ca, cb := multiset(allWords)[a], multiset(allWords)[b];
    ca > cb || (ca == cb && FirstIndex(allWords, a) < FirstIndex(allWords, b))
  }

  /**
   * `chart` lists the n most common words of the corpus: min(n, number of
   * distinct words) of them, each with its exact count, no word twice,
   * counts non-increasing, equal counts in order of first occurrence, and
   * no word left out that ranks before one listed.
   */
  predicate IsTopWords(allWords: seq<string>, n: nat, chart: WordChart) {
    && |chart.words| == |chart.counts| == Min(n, |Elements(allWords)|)
    && (forall i :: 0 <= i < |chart.words| ==>
          chart.words[i] in allWords && chart.counts[i] == multiset(allWords)[chart.words[i]])
    && NoDuplicates(chart.words)
    && (forall i, j :: 0 <= i < j < |chart.counts| ==> chart.counts[i] >= chart.counts[j])
    && (forall i, j :: 0 <= i < j < |chart.words| ==>
          RanksBefore(allWords, chart.words[i], chart.words[j]))
    && (forall i, w :: 0 <= i < |chart.words| && w in allWords && w !in chart.words ==>
          RanksBefore(allWords, chart.words[i], w))
  }

  /** The counting dictionary of a corpus is a well-formed one. */
  lemma CounterOfCorpus(allWords: seq<string>)
    ensures ValidCounter(CountsOf(allWords), Distinct(allWords))
  {
  }

  /** Unpacking (word, count) pairs into two columns. */
  function Unzip(top: seq<(string, nat)>): (chart: WordChart)
    ensures |chart.words| == |chart.counts| == |top|
    ensures forall i :: 0 <= i < |top| ==> top[i] == (chart.words[i], chart.counts[i])
  {
    WordChart(Words(top), seq(|top|, i requires 0 <= i < |top| => top[i].1))
  }

  /**
   * The answer of most_common(n) on the counting dictionary of a corpus,
   * unpacked, lists the n most common words of that corpus.
   */
  lemma MostCommonOfCorpus(allWords: seq<string>, n: nat, top: seq<(string, nat)>)
    requires ValidCounter(CountsOf(allWords), Distinct(allWords))
    requires IsMostCommon(CountsOf(allWords), Distinct(allWords), n, top)
    ensures IsTopWords(allWords, n, Unzip(top))
  {
    var counts, keys := CountsOf(allWords), Distinct(allWords);
    var chart := Unzip(top);
    DistinctLength(allWords);
    forall a, b | a in allWords && b in allWords
      ensures Outranks(counts, keys, a, b) <==> RanksBefore(allWords, a, b)
    {
      DistinctOrderIff(allWords, a, b);
    }
    assert chart.words == Words(top);
    forall i, j | 0 <= i < j < |chart.counts| ensures chart.counts[i] >= chart.counts[j] {
      assert Outranks(counts, keys, top[i].0, top[j].0);
    }
  }

  /**
   * The ten most common words of the corpus and their counts, unpacked into
   * two columns. An empty corpus has no most common words, and unpacking
   * the empty list fails.
   */
  method TopWords(allWords: seq<string>) returns (r: Result<WordChart>)
    ensures r.Failure? <==> allWords == []
    ensures r.Success? ==> IsTopWords(allWords, 10, r.value)
  {
    var counts, keys := CountWords(allWords);
    CounterOfCorpus(allWords);
    var top := MostCommon(counts, keys, 10);
    assert allWords != [] ==> allWords[0] in keys;
    if top == [] {
      return Failure(NotEnoughValuesToUnpack);
    }
    MostCommonOfCorpus(allWords, 10, top);
    r := Success(Unzip(top));
  }

  // The corpus ["good", "bad", "good", "ugly", "bad", "good"]: its top three
  // are good (3), bad (2) and ugly (1).

  /** A value already present leaves the first occurrences unchanged. */
  lemma DistinctKeeps<T>(s: seq<T>, x: T, d: seq<T>)
    requires Distinct(s) == d && x in s
    ensures Distinct(s + [x]) == d
  {
    DistinctSnoc(s, x);
  }

  /** A new value is appended to the first occurrences. */
  lemma DistinctAdds<T>(s: seq<T>, x: T, d: seq<T>)
    requires Distinct(s) == d && x !in s
    ensures Distinct(s + [x]) == d + [x]
  {
    DistinctSnoc(s, x);
  }

  /** First occurrences of the corpus's pattern x y x z y x, for any three distinct values. */
  lemma PatternKeys<T>(x: T, y: T, z: T)
    requires x != y && x != z && y != z
    ensures Distinct([x, y, x, z, y, x]) == [x, y, z]
  {
    var s0: seq<T> := [];
    var s1 := s0 + [x];
    var s2 := s1 + [y];
    var s3 := s2 + [x];
    var s4 := s3 + [z];
    var s5 := s4 + [y];
    DistinctAdds(s0, x, []);
    DistinctAdds(s1, y, [x]);
    DistinctKeeps(s2, x, [x] + [y]);
    DistinctAdds(s3, z, [x] + [y]);
    DistinctKeeps(s4, y, [x] + [y] + [z]);
    DistinctKeeps(s5, x, [x] + [y] + [z]);
    assert s5 + [x] == [x, y, x, z, y, x];
    assert [x] + [y] + [z] == [x, y, z];
  }

  lemma ExampleKeys()
    ensures Distinct(["good", "bad", "good", "ugly", "bad", "good"]) == ["good", "bad", "ugly"]
  {
    var g, b, u := "good", "bad", "ugly";
    assert g != b && g != u && b != u by {
      assert g[0] != b[0] && g[0] != u[0] && b[0] != u[0];
    }
    PatternKeys(g, b, u);
  }

  /** Occurrence counts of the corpus's pattern x y x z y x, for any three distinct values. */
  lemma PatternCounts<T>(x: T, y: T, z: T)
    requires x != y && x != z && y != z
    ensures var m := multiset([x, y, x, z, y, x]); m[x] == 3 && m[y] == 2 && m[z] == 1
  {
    var m := multiset([x, y, x, z, y, x]);
    assert m == multiset{x, x, x, y, y, z};
  }

  lemma ExampleCounts()
    ensures var c := CountsOf(["good", "bad", "good", "ugly", "bad", "good"]);
      "good" in c && "bad" in c && "ugly" in c && c["good"] == 3 && c["bad"] == 2 && c["ugly"] == 1
  {
    var g, b, u := "good", "bad", "ugly";
    assert g != b && g != u && b != u by {
      assert g[0] != b[0] && g[0] != u[0] && b[0] != u[0];
    }
    var corpus := [g, b, g, u, b, g];
    PatternCounts(g, b, u);
    assert g in corpus && b in corpus && u in corpus by {
      assert corpus[0] == g && corpus[1] == b && corpus[3] == u;
    }
    var c := CountsOf(corpus);
    assert c[g] == multiset(corpus)[g] && c[b] == multiset(corpus)[b] && c[u] == multiset(corpus)[u];
  }

  /**
   * With three keys whose counts strictly decrease in insertion order, the
   * keys with their counts, in that order, meet the most_common(3) specification.
   */
  lemma ThreeKeysInOrder(counts: map<string, nat>, keys: seq<string>, top: seq<(string, nat)>)
    requires ValidCounter(counts, keys) && |keys| == 3
    requires counts[keys[0]] > counts[keys[1]] > counts[keys[2]]
    requires top == [(keys[0], counts[keys[0]]), (keys[1], counts[keys[1]]), (keys[2], counts[keys[2]])]
    ensures IsMostCommon(counts, keys, 3, top)
  {
    assert Words(top) == keys;
  }

  /** [(good, 3), (bad, 2), (ugly, 1)] meets the most_common(3) specification for the example corpus. */
  lemma ExampleAnswer()
    ensures var corpus := ["good", "bad", "good", "ugly", "bad", "good"];
      && ValidCounter(CountsOf(corpus), Distinct(corpus))
      && IsMostCommon(CountsOf(corpus), Distinct(corpus), 3, [("good", 3), ("bad", 2), ("ugly", 1)])
  {
    var corpus := ["good", "bad", "good", "ugly", "bad", "good"];
    CounterOfCorpus(corpus);
    ExampleKeys();
    ExampleCounts();
    ThreeKeysInOrder(CountsOf(corpus), Distinct(corpus), [("good", 3), ("bad", 2), ("ugly", 1)]);
  }

  lemma TopThreeExample(top: seq<(string, nat)>)
    requires ValidCounter(CountsOf(["good", "bad", "good", "ugly", "bad", "good"]), Distinct(["good", "bad", "good", "ugly", "bad", "good"]))
    requires IsMostCommon(CountsOf(["good", "bad", "good", "ugly", "bad", "good"]), Distinct(["good", "bad", "good", "ugly", "bad", "good"]), 3, top)
    ensures top == [("good", 3), ("bad", 2), ("ugly", 1)]
  {
    ExampleAnswer();
    MostCommonUnique(CountsOf(["good", "bad", "good", "ugly", "bad", "good"]), Distinct(["good", "bad", "good", "ugly", "bad", "good"]), 3, top, [("good", 3), ("bad", 2), ("ugly", 1)]);
  }
}
