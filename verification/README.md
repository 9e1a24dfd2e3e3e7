# Amazon review analysis — the data pipeline, modelled in Dafny

`task2.py` loads a table of product reviews and draws three grids of charts.
Apart from the plotting and the file I/O, the script does a small amount of
computation:

* **Cleaning.** Exact duplicate rows are dropped, keeping the first of each.
  Three columns are then added to the table: the month of the review date,
  the character length of the review text, and a sentiment label. The label
  is Positive, Negative or Neutral according to the sign of a polarity score
  from an external scorer.
* **Aggregates.** Two aggregates are computed per month:
  * the mean rating of each month;
  * the number of reviews of each (month, sentiment) pair, with the pairs no
    review has filled in as 0.
* **Word frequency.** Every review text is tokenized: lower-cased, stripped
  of everything but letters and whitespace, and split on whitespace. The
  tokens of all reviews are gathered into one corpus. The corpus is counted
  with an insertion-ordered counter. The ten most common words are then
  unpacked into a word column and a count column.

The model is split into modules:

| file | module | what it holds |
|---|---|---|
| `seqs.dfy` | `Seqs` | shared sequence facts: first occurrence, "keep the first of each value", distinctness |
| `tokenizer.dfy` | `Tokenizer` | the tokenizer as pure functions, and its properties |
| `word_frequency.dfy` | `WordFrequency` | the corpus loop, the counting loop, `most_common` as a selection loop, the unpacking |
| `sentiment.dfy` | `Sentiments` | the sentiment threshold |
| `reviews.dfy` | `Reviews` | review records, the table as a class whose columns are added in place, the cleaning stage |
| `aggregates.dfy` | `Aggregates` | the monthly mean rating and the monthly sentiment count table |

The loops of the script are modelled as methods with loop invariants:

* the `extend` loop that builds the corpus;
* counting, i.e. building the counter dictionary;
* `most_common(10)`.

Each method is proved against a specification function or predicate, and the
promised properties are proved about that specification. The table is a
class. Each of its column-adding methods states the column it adds and that
nothing else changes.

## Model

| member | source | states |
|---|---|---|
| Tokenizer.ToLower | task2.py:107 | an ASCII upper-case letter becomes its own lower-case letter (same place in the alphabet); every other character is unchanged |
| Tokenizer.Lower | task2.py:107 | same length; each upper-case letter is replaced by its own lower-case letter and every other character is left as it is; so no upper-case letter is left, a position holds `a`-`z` exactly when the input held an ASCII letter, and whitespace is unchanged |
| Tokenizer.StripNonLetters | task2.py:108 | the result is no longer than the input and holds only `a`-`z` and whitespace; StripAppend and StripOne below fix exactly which characters remain |
| Tokenizer.StripAppend | task2.py:108 | the deletion works character by character: filtering a concatenation is concatenating the filtered parts |
| Tokenizer.StripOne | task2.py:108 | a single character is kept exactly when it is `a`-`z` or whitespace, and otherwise deleted without replacement |
| Tokenizer.StripKeepsKept | task2.py:108 | text made only of `a`-`z` and whitespace passes through the filter unchanged |
| Tokenizer.StripKeepsNoSpace | task2.py:108 | the filter deletes characters and inserts none, so it creates no whitespace |
| Tokenizer.WordLength | task2.py:109 | the length of the leading word: no whitespace before it, and whitespace or the end right after it |
| Tokenizer.Split | task2.py:109 | every piece is non-empty and holds no whitespace; SplitAtSpace and SplitWord below fix where the pieces begin and end |
| Tokenizer.SplitOfKept | task2.py:108-109 | splitting text made of `a`-`z` and whitespace yields only `[a-z]+` tokens |
| Tokenizer.Tokenize | task2.py:106-109 | every token is non-empty and made only of `a`-`z` |
| Tokenizer.NonSpaceAppend | task2.py:109 | deleting whitespace distributes over concatenation |
| Tokenizer.NonSpaceOfWord | task2.py:109 | deleting whitespace leaves a whitespace-free string unchanged |
| Tokenizer.ConcatSplit | task2.py:109 | the split pieces, concatenated, are the text with all its whitespace deleted: splitting loses only whitespace |
| Tokenizer.NonSpaceStripLower | task2.py:107-108 | lowering and filtering, with whitespace then deleted, leave exactly the text's ASCII letters, lowered, in order |
| Tokenizer.TokensSpellLetters | task2.py:106-109 | the tokens, concatenated, are the text's ASCII letters lowered and in order: no letter is lost, added or reordered |
| Tokenizer.LettersEmptyIff | task2.py:107-108 | the lowered letters of a text are empty exactly when it has no ASCII letter |
| Tokenizer.NoTokensIffNoLetters | task2.py:106-109 | a text yields no token exactly when it contains no ASCII letter, so empty and whitespace-only text yield none |
| Tokenizer.SplitWord | task2.py:109 | a single word splits into itself |
| Tokenizer.TokenizeWithoutSpaces | task2.py:107-109 | a text without whitespace but with some letter is one token: punctuation is deleted, not turned into a separator |
| Tokenizer.DontIsOneToken | task2.py:107-108 | `"Don't!"` gives the single token `"dont"` |
| Tokenizer.JoinOfTokens | task2.py:106-109 | tokens joined by single spaces form a text of only `a`-`z` and spaces |
| Tokenizer.SplitLeadingSpace | task2.py:109 | one leading space character does not change the split |
| Tokenizer.SplitJoin | task2.py:109 | splitting words joined by single spaces gives back the words |
| Tokenizer.SplitAtSpace | task2.py:109 | a whitespace character separates: the pieces of `a`, whitespace, `b` are the pieces of `a` followed by those of `b`, so no piece spans whitespace |
| Tokenizer.TokenizeAtSpace | task2.py:106-109 | the tokens of `a`, whitespace, `b` are the tokens of `a` followed by those of `b`; with TokenizeWithoutSpaces and NoTokensIffNoLetters this fixes every token of every text |
| Tokenizer.TokenizeIdempotent | task2.py:106-109 | tokenizing the space-joined tokens of a text gives the same tokens |
| WordFrequency.BuildCorpus | task2.py:111-113 | the loop that extends the corpus review by review produces the tokens of every review, in record order |
| WordFrequency.AllWordsAppend | task2.py:111-113 | the corpus of two runs of reviews is the concatenation of their corpora |
| WordFrequency.AllWordsLength | task2.py:111-113 | the corpus length is the sum of the per-review token counts |
| WordFrequency.AllWordsAreTokens | task2.py:111-113 | every corpus entry is a `[a-z]+` token |
| WordFrequency.CountWords | task2.py:115 | the counting loop builds a map in which each distinct corpus word has its exact number of occurrences; its key order is the order of first occurrence |
| WordFrequency.CountStep | task2.py:115 | counting the next word of the corpus increments its entry or inserts it with count 1, and appends it to the key order exactly when it is new |
| WordFrequency.CountsOfSnoc | task2.py:115 | counting one more word adds 1 to its count, or enters it with count 1, and changes no other entry |
| WordFrequency.CounterOfCorpus | task2.py:115 | the counter of a corpus has exactly one key per distinct word, each key once |
| WordFrequency.SelectBest | task2.py:115 | one selection step picks an untaken key that outranks every other untaken key: a higher count, or an equal count and earlier insertion |
| WordFrequency.MostCommon | task2.py:115 | `most_common(n)` returns min(n, number of keys) distinct entries with exact counts. They are in descending count order, with ties in insertion order, and each outranks every key left out |
| WordFrequency.RankAgainst | task2.py:115 | in a `most_common` answer, the entry at a position outranks every key not listed before it, other than itself |
| WordFrequency.MostCommonStep | task2.py:115 | two answers that agree before a position agree at it |
| WordFrequency.MostCommonUnique | task2.py:115 | that specification admits exactly one answer, so it fixes the order completely |
| WordFrequency.Unzip | task2.py:116 | unpacking the pairs gives a word column and a count column of the same length, pairwise equal to the entries |
| WordFrequency.MostCommonOfCorpus | task2.py:115-116 | on the counter of a corpus, the selected pairs unpack into the corpus's top words. There are min(n, distinct words) of them, each with its exact count in the corpus and none twice. Counts are non-increasing, ties go to the word that occurs first in the corpus, and no word left out ranks before one listed |
| WordFrequency.TopWords | task2.py:115-116 | an empty corpus fails to unpack. Any other corpus yields its top ten words and counts, as above |
| WordFrequency.PatternKeys | task2.py:115 | for any three distinct values x, y, z, the first occurrences of x y x z y x are x, y, z in that order |
| WordFrequency.PatternCounts | task2.py:115 | for any three distinct values x, y, z, the sequence x y x z y x holds x three times, y twice and z once |
| WordFrequency.ExampleKeys | task2.py:115 | the example corpus's keys in insertion order are good, bad, ugly |
| WordFrequency.ExampleCounts | task2.py:115 | the example corpus counts good 3, bad 2, ugly 1 |
| WordFrequency.ThreeKeysInOrder | task2.py:115 | for a counter of three keys whose counts strictly decrease in insertion order, those keys with their counts, in that order, meet the `most_common(3)` specification |
| WordFrequency.ExampleAnswer | task2.py:115 | the example corpus's counter is well formed, and [(good, 3), (bad, 2), (ugly, 1)] meets the `most_common(3)` specification for it |
| WordFrequency.TopThreeExample | task2.py:115 | any answer meeting that specification on the example corpus is exactly [(good, 3), (bad, 2), (ugly, 1)] |
| Seqs.FirstIndex | task2.py:115 | the position of the first occurrence: it holds the value, and no earlier position does |
| Seqs.FirstIndexOfDistinct | task2.py:115 | without duplicates, every value's first position is its own position |
| Seqs.FirstIndexPrefix | task2.py:113 | extending a sequence does not move the first occurrence of a value already in it |
| Seqs.Distinct | task2.py:21 | keeping the first of each value leaves no duplicate, drops no value, adds none, and never lengthens |
| Seqs.DistinctOrder | task2.py:21 | the kept values keep the relative order of their first occurrences |
| Seqs.DistinctOrderIff | task2.py:115 | two values are ordered the same way by position among the kept values and by first occurrence in the input |
| Seqs.DistinctSnoc | task2.py:115 | appending a value adds it to the kept values exactly when it is new |
| Seqs.ElementsSize | task2.py:115 | a sequence has at most as many distinct values as entries, and exactly as many when it has no duplicates |
| Seqs.DistinctLength | task2.py:115 | the kept values number exactly the distinct values |
| Seqs.SubsetLength | task2.py:115 | a duplicate-free sequence drawn from another is no longer than it |
| Seqs.Pigeonhole | task2.py:115 | a duplicate-free sequence longer than another holds a value the other lacks |
| Sentiments.GetSentiment | task2.py:28-35 | every score gets exactly one label: Positive exactly when it is above 0, Negative exactly when below 0, Neutral exactly at 0 |
| Sentiments.SentimentMonotone | task2.py:30-35 | a higher score never gets a less favourable label |
| Reviews.SameMonthIff | task2.py:22 | the month bucket of a date (`Reviews.MonthOf`) depends on its year and month only: two dates share a bucket exactly when both agree |
| Reviews.EnrichAll | task2.py:22-37 | the cleaned table has one row per kept review, in order. Each row's month is the (year, month) of its date, its length is the number of characters of its text, and its label is the sign label of its text's score |
| Reviews.CleanedRows | task2.py:21 | after duplicate removal no two rows are equal. Every loaded review is some row's review, and every row's review was loaded. Rows follow the order of first occurrence |
| Reviews.ReviewFrame.Rows | task2.py:21-23 | the table read row by row: one row per review, built from the columns at that index |
| Reviews.ReviewFrame.constructor | task2.py:21 | the de-duplicated table starts with the loaded columns only |
| Reviews.ReviewFrame.AddMonthColumn | task2.py:22 | adds a month column holding each row's (year, month); nothing else changes |
| Reviews.ReviewFrame.AddLengthColumn | task2.py:23 | adds a length column holding the character count of each row's text; nothing else changes |
| Reviews.ReviewFrame.AddSentimentColumn | task2.py:37 | adds a sentiment column holding each row's label under the scorer; nothing else changes |
| Reviews.Clean | task2.py:21-37 | the de-duplicated table, with its three derived columns, is exactly the table EnrichAll describes for the kept reviews |
| Aggregates.MonthRatings | task2.py:68 | a month's group is no larger than the table, and is non-empty exactly when some row falls in that month |
| Aggregates.Mean | task2.py:68 | the mean times the number of values is their sum |
| Aggregates.MonthlyMeanRating | task2.py:68 | the mean rating is defined for exactly the months that occur, and is the mean of that month's ratings |
| Aggregates.MonthRatingsBounded | task2.py:68 | a month's ratings obey any bounds that all ratings obey |
| Aggregates.SumBounds | task2.py:68 | a sum of values in [lo, hi] lies between lo and hi times their number |
| Aggregates.QuotientBounds | task2.py:68 | a quotient by a positive count stays within the bounds its numerator obeys per unit |
| Aggregates.MeanWithinRatingRange | task2.py:68 | when every rating lies in [lo, hi], so does every monthly mean |
| Aggregates.ExampleGroup | task2.py:68 | three rows of one month rated 4, 5 and 3 form one group with those ratings |
| Aggregates.ExampleMean | task2.py:68 | the mean of 4, 5 and 3 is 4 |
| Aggregates.MeanExample | task2.py:68 | a table of three rows of one month rated 4, 5 and 3 has that month's mean 4 and no other key |
| Aggregates.MonthlySentimentCounts | task2.py:96 | the count table has a cell for every occurring month paired with every occurring label, and no other cell. Each cell holds the number of rows with that month and label |
| Aggregates.CountInZero | task2.py:96 | a cell is 0 exactly when no row has both its month and its label: the 0 filled in for missing pairs |
| Aggregates.MonthPartition | task2.py:96 | a month's three label counts add up to the size of that month's group |
| Aggregates.ExampleCountIn | task2.py:96 | with two positive rows in one month and one negative row in another, the (month, sentiment) pair counts are 2 and 1 for those two pairs and 0 for every other pair |
| Aggregates.FilledTableExample | task2.py:96 | two positive rows in one month and one negative row in another give that month 2 positive and 0 negative, and the other month 0 positive and 1 negative |
| Aggregates.MonthRowTotal | task2.py:96 | an occurring month's cells add up to the size of its group, counting an absent label as 0 |
| Aggregates.TableTotalIsGroupTotal | task2.py:96 | over any occurring months, the table's cells sum to those months' group sizes |
| Aggregates.GroupTotalSnoc | task2.py:68 | adding a row adds one to the total of a set of months exactly when its month is among them |
| Aggregates.GroupsCoverRows | task2.py:68 | the month groups partition the table: their sizes add up to the number of rows |
| Aggregates.SentimentCountsTotal | task2.py:96 | all cells of the count table add up to the number of rows |

## Left out

- Loading the CSV file and parsing the dates (task2.py:15-16). Reviews are taken as typed records. A date is a (year, month, day) triple, and calendar validity is not checked.
- Reviews.MonthOf: the period conversion (task2.py:22) is modelled as keeping the (year, month) of the date.
- The polarity scorer (task2.py:29) is an external library. It is a parameter `score: string -> real` of the cleaning stage, and `Sentiments.GetSentiment` takes its result as a `real`. The label is a datatype rather than the strings "Positive", "Negative" and "Neutral".
- The correlation matrix (task2.py:101) is floating-point statistics and is not modelled.
- All plotting, figure layout and image output (task2.py:42-60, 65-84, 89-100, 102-104, 118-123) is left out. The per-category means and counts that the chart library computes inside its plots (task2.py:45, 51, 76, 92) are left out with it.
- Tokenizer.Lower: lowering covers ASCII `A`-`Z` only. Python lowers every Unicode letter; some non-ASCII characters, such as the Kelvin sign, even lower to an ASCII letter, and the model does not follow them.
- Tokenizer.IsSpace: whitespace is the ASCII characters Python counts as whitespace (tab, line feed, vertical tab, form feed, carriage return, 0x1C-0x1F and space), not the full Unicode whitespace class.
- Missing values (empty cells read as NaN) are not modelled. Every rating is an integer and every text a string.
- Aggregates.MonthlyMeanRating and Aggregates.MonthlySentimentCounts are maps, which have no order. The chronological ordering of the month index is not modelled.
- Reviews.ReviewFrame models the table as one sequence per column. The frame is assigned but never aliased in the script, so aliasing is not modelled.
- WordFrequency.MostCommon chooses by repeated selection of the first highest-ranked remaining key, not by a heap. The result is specified by the ranking alone, and `WordFrequency.MostCommonUnique` shows that this ranking allows only one answer.
- The helpful-vote and category columns are carried in `Reviews.Review`. Duplicate removal compares them like every other column, because it compares whole rows. Their other uses, the correlation matrix and the plots, are left out.
- Aggregates.MonthlyMeanRating: the means are exact rationals (`real`). The script's means are 64-bit floats, so their rounding is not modelled.
- Aggregates.MonthlySentimentCounts: the counts are natural numbers. The script's table holds 64-bit floats once the missing cells are filled, and that is not modelled.
