# doc2topic data preparation, modelled in Dafny

doc2topic trains a document–topic embedding model with negative sampling.
Before training, `train.py` turns a corpus into training examples:

1. It reads the corpus and counts every token (`read_data`).
2. It takes `vocab_len` as the number of distinct tokens counted more than
   `min_count` times.
3. It loads a second word-count table from file, which acts as the
   frequency filter.
4. It walks the documents. The tokens that pass the filter get dense IDs
   from a `defaultdict` whose default is the dictionary's own length. For
   each surviving token it appends one group of `ns_rate + 1` examples to
   three parallel lists:
   - `input_docs` gets the document index, `ns_rate + 1` times;
   - `input_tokens` gets the token's ID, then `ns_rate` negatives drawn
     uniformly from `[1, vocab_len - 1]`;
   - `outputs` gets the label 1, then `ns_rate` zeros.
5. It inverts the token table into `idx2token`.

The model has five modules:

- `Wrappers` holds `Option`.
- `Counting` holds the counting loop as a method, proved against occurrence
  functions, and the sum of all counts. It also defines `vocab_len`.
- `Vocab` defines the insert-or-get table as a fold over the lookups. It
  proves that the IDs are dense, distinct, stable and ordered by first
  occurrence, and it defines the inverse table.
- `Stream` holds value-level definitions of the filter, the scan of the
  corpus and the three columns, with their shape lemmas.
- `Prepare` holds the stateful part. The class `Preparer` holds the
  `token2idx` map, its next-ID counter and the three lists. Its methods
  mirror the loops of the script and are proved to leave the lists equal to
  the `Stream` functions of the corpus. `PrepareData` runs the whole
  pipeline.

The filter table and `vocab_len` are separate inputs, as in the script:
- the filter is the loaded table;
- `vocab_len` comes from the corpus counts.

`CorpusFilterMatchesVocab` shows that the two agree when the filter is the
corpus's own count table. `LoadedFilterCanExceedVocab` exhibits a corpus
where a token gets an ID that is not below `vocab_len`.

`random.randint` is modelled as a nondeterministic choice from the
requested range. An empty range raises `ValueError` in Python. Here it is
`None`, and the preparation methods then return `ok == false`.

## Model

| member | source | states |
|---|---|---|
| Counting.CountDocument | train.py:58-59 | every token's count grows by its number of occurrences in the document; the keys grow by exactly the document's tokens; the sum of all counts grows by the document's length |
| Counting.ReadData | train.py:52-59 | the documents are returned in order; every token's count equals its number of occurrences in the corpus; the counted tokens are exactly the corpus tokens; the counts sum to the total number of tokens |
| Counting.CountOf | train.py:48 | the read of a count table held in a `defaultdict(lambda: 0)`: the stored count, or 0 for a missing token. What that read yields on the corpus table, missing tokens included, is `ReadData`'s first ensures |
| Counting.CountOfIncrement | train.py:59 | `cntr[token] += 1` raises the read count of `token` by one and leaves every other token's read count unchanged, whether or not `token` was present |
| Counting.SumCountsIncrement | train.py:59 | `cntr[token] += 1` on a defaultdict raises the sum of the counts by exactly one, whether or not the token was present |
| Counting.OccPositive | train.py:52-59 | a token has a positive corpus count exactly when it occurs in the corpus |
| Counting.VocabLen | train.py:105 | `vocab_len` counts the table entries above `min_count`, so it never exceeds the number of distinct counted tokens, and equals it when every count is above `min_count` |
| Counting.VocabLenOfCorpus | train.py:105 | `vocab_len` computed from the table the reading loop builds is the number of distinct corpus tokens that occur more than `min_count` times |
| Vocab.Ids | train.py:117 | `token2idx` after a sequence of lookups, each storing `len(token2idx)` for a new token; it never holds more entries than there were lookups |
| Vocab.IdsKeys | train.py:117 | exactly the tokens looked up get an entry in `token2idx` |
| Vocab.IdsDenseInjective | train.py:117 | after any lookups the IDs are exactly `0 .. len(token2idx) - 1` and no two tokens share one |
| Vocab.IdsStable | train.py:117 | later lookups never change an ID that was already assigned |
| Vocab.IdsGrow | train.py:117 | each lookup adds at most one entry and never removes one |
| Vocab.IdAtFirstOccurrence | train.py:117 | a token first met at position `i` gets as its ID the size of the table built so far, which is the number of distinct tokens met before it |
| Vocab.FirstOccurrenceOrder | train.py:117 | a token first met earlier gets a strictly smaller ID |
| Vocab.Invert | train.py:141 | `idx2token` has exactly the IDs of the table as keys and undoes the table both ways |
| Vocab.IdsInverse | train.py:141 | the inverse of a lookup table holds exactly the IDs below the table's size; each token maps back to itself and each ID maps back to itself |
| Stream.Survivors | train.py:122 | the tokens of one document that pass `cntr[token] > min_count`, in document order; never more than the document has, and each one passes the filter. `SurvivorsSingle`, `SurvivorsAppend` and `SurvivorsOcc` pin it down as the order-keeping filter |
| Stream.SurvivorsSingle | train.py:122 | a one-token document keeps its token exactly when its filter count exceeds `min_count` |
| Stream.SurvivorsAppend | train.py:122 | filtering two runs of tokens one after the other gives the survivors of the first run followed by those of the second, so the comprehension keeps document order |
| Stream.SurvivorsOcc | train.py:122 | a token that passes the filter occurs among the survivors exactly as often as in the document, and a token that fails does not occur there at all |
| Stream.SurvivorsMembers | train.py:122 | the filter keeps exactly the document's tokens whose filter count exceeds `min_count`, and never more tokens than the document has |
| Stream.Scan | train.py:118-122 | the surviving tokens of the whole corpus, document after document; each one passes the filter |
| Stream.ScanMembers | train.py:118-122 | the scanned tokens are exactly the corpus tokens that pass the filter |
| Stream.ScanAppend | train.py:118-122 | scanning two corpora in turn is scanning their concatenation |
| Stream.Labels | train.py:127 | `outputs` for `m` surviving tokens: `m` groups `[1] + [0] * ns_rate`, one after the other; its length, shape and counts are `LabelsShape` and `LabelsCount` |
| Stream.LabelsShape | train.py:127 | `outputs` has `m * (ns_rate + 1)` labels; in each group the first label is 1 and the others are 0 |
| Stream.LabelsCount | train.py:127 | `outputs` has `m * (ns_rate + 1)` labels, exactly `m` of them 1 and `m * ns_rate` of them 0 |
| Stream.LabelsAppend | train.py:118-127 | the labels of two runs of groups, placed one after the other, are the labels of all their tokens |
| Stream.TokenColumn | train.py:124-125 | `input_tokens` for a sequence of IDs: each ID followed by the `ns_rate` negatives drawn for it; its group layout is `TokenColumnShape` |
| Stream.TokenColumnShape | train.py:124-125 | group `g` of `input_tokens` starts with the `g`-th surviving ID and continues with the negatives drawn for it |
| Stream.NegativeIdsInRange | train.py:125 | every negative position of `input_tokens` holds an ID in `[1, vocab_len - 1]` |
| Stream.TokenColumnAppend | train.py:118-125 | the token columns of two runs of groups, concatenated, are the column of the concatenated runs |
| Stream.DocBlock | train.py:126 | the `input_docs` entries one document adds: its index, `ns_rate + 1` times per surviving token; its shape is `DocBlockShape` |
| Stream.DocBlockShape | train.py:126 | the document IDs appended for one document are its index, `ns_rate + 1` times per surviving token |
| Stream.DocColumn | train.py:118-126 | `input_docs` for a whole corpus: the blocks of documents `0, 1, ...` in order; its length, range and order are `DocColumnShape` |
| Stream.DocColumnShape | train.py:118-126 | `input_docs` has `ns_rate + 1` entries per surviving token; every entry is a document index of the corpus; the column never decreases |
| Stream.IdsOf | train.py:122 | the IDs the comprehension collects for a token sequence: as many as there are tokens, position by position the table's ID of the token there |
| Stream.IdsOfNext | train.py:122 | mapping one more token through a table that extends the old one extends the mapped IDs by that token's ID |
| Prepare.RandInt | train.py:125 | `random.randint(lo, hi)` yields some value in `[lo, hi]`; it fails exactly when the range is empty |
| Prepare.DrawNegatives | train.py:125 | the draw fails exactly when `ns_rate > 0` and `vocab_len < 2`; otherwise it yields `ns_rate` IDs in `[1, vocab_len - 1]` |
| Prepare.Preparer.constructor | train.py:116-117 | preparation starts with an empty `token2idx` and three empty lists |
| Prepare.Preparer.Lookup | train.py:117-122 | `token2idx[token]` returns the stored ID, or stores and returns `len(token2idx)` for a new token; the table stays the fold of all lookups |
| Prepare.Preparer.TokenIds | train.py:122 | the list comprehension looks up exactly the surviving tokens, in order, and returns their IDs |
| Prepare.Preparer.AppendGroup | train.py:124-127 | one token appends its ID and negatives, its document index `ns_rate + 1` times, and the labels `[1] + [0] * ns_rate`; the three lists stay equal in length |
| Prepare.Preparer.AppendNext | train.py:123-127 | one pass of the inner loop extends each list from the columns of the first `i` IDs to those of the first `i + 1` |
| Prepare.Preparer.AppendExamples | train.py:123-127 | the inner loop appends exactly the document block, the token column and the labels of the document's IDs; it fails exactly when the document has an ID, `ns_rate > 0` and `vocab_len < 2` |
| Prepare.Preparer.AddDocument | train.py:122-127 | one document looks up its surviving tokens, keeps all earlier IDs, and appends exactly one group per surviving token |
| Prepare.Preparer.AddNext | train.py:118-127 | one pass of the document loop extends every list and the table from the first `d` documents to the first `d + 1` |
| Prepare.Preparer.AddAll | train.py:116-127 | from an empty start, the lists are exactly the columns of the whole corpus scan, and `token2idx` is the fold of the scan |
| Prepare.PrepareData | train.py:104-141 | `vocab_len` is the number of corpus tokens counted more than `min_count` times; `token2idx` is the fold of the filtered scan; the three lists are its columns; `idx2token` is its exact inverse. It fails exactly when negatives are needed and `vocab_len < 2` |
| Prepare.TableKeys | train.py:117-122 | the final `token2idx` holds exactly the corpus tokens that pass the filter, with dense distinct IDs |
| Prepare.CorpusFilterMatchesVocab | train.py:105-122 | if the filter reads the corpus's own counts, `token2idx` has exactly `vocab_len` entries and every ID is below `vocab_len` |
| Prepare.LoadedFilterCanExceedVocab | train.py:105-122 | with a loaded table that differs from the corpus counts, a token can get ID 0 while `vocab_len` is 0 |

## Left out

- Reading the file, `strip().lower().split()`, the progress prints and `print()` are left out. A document is given as its token sequence, so Unicode case folding and whitespace rules are not modelled.
- `load_counts` and the JSON file it reads are outside this model. The loaded table is a parameter `loaded`. The model assumes that the loaded table reads a missing token as 0, as the corpus table of line 48 does (`Counting.CountOf`). If `load_counts` returns a plain `dict` (which `json.load` gives), then line 122 raises `KeyError` for a corpus token missing from the file; that error is not modelled. The co-occurrence table `cocntr` is not used by the core and is left out.
- `random.randint` is modelled as an arbitrary value of its range. The Mersenne Twister and its uniform distribution are not modelled.
- After a `ValueError` the script dies. The model returns `ok == false` and states nothing about the lists. It also draws a token's negatives before appending its ID, whereas the script appends the ID first. The two differ only in the state left behind by the failed draw.
- `Vocab.Invert` is stated only for injective tables. That is the only kind the insert-or-get table produces (`Vocab.IdsDenseInjective`). On a table with repeated IDs, Python's `dict` keeps the last token for an ID.
- Prepare.Preparer.AddAll: requires the freshly initialised, empty state. The script runs the document loop once, right after lines 116-117 create the empty lists and table.
- The numpy conversion, `del data`, the JSON dump of `idx2token`, the Keras model, training, metrics, `get_topic_words`, `most_similar_words` and `write_log` are left out. They are I/O or foreign libraries.
- `nsRate` is a `nat`, so a negative `ns_rate` is excluded by the type. With one, `[doc_id]*(ns_rate+1)` at line 126 would append fewer entries than the other two lists get, and the lists would no longer be equal in length. The script fixes the rate at 1 (line 36).
- Python's `int` is unbounded, so the model's `int` and `nat` need no bound. The `int32` cast of the lists during numpy conversion is not modelled.
