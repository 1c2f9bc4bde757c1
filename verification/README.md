# Author-Decomposition: a Dafny model of the stylometric data pipeline

Author-Decomposition splits a document written by several authors into per-author
groups of sentences. Its pure core does the following:

- It concatenates single-author texts into a synthetic multi-author text and records
  which character range each author wrote.
- It holds that text as sentences tagged with author ids.
- It cuts the text into fixed-size chunks.
- It builds token, character n-gram and part-of-speech models from a corpus, saves them
  as `token count` lines and loads them back.
- It turns each chunk into a boolean feature vector: one flag per reference feature,
  true when the chunk contains it.
- It groups chunks by a clustering label and scores the result by purity.

This project models that core in Dafny and proves what each step promises. The modules
follow the repository's files:

| module | models |
|---|---|
| `Wrappers` | results and the Python exceptions the core raises |
| `PyStr`, `Seqs`, `Arith` | Python string, slice and index semantics |
| `Tally` | `Counter`/dict counting in insertion order, `most_common(1)` and `max` tie-breaks |
| `NGram` | both `_make_ngram` window rules |
| `SentenceChunker` | `src/chunk.py` |
| `FlushChunk` | `Chunk.generate` and `Feature.simple_concat` |
| `ModelFile` | the saved model file format and both `load` variants |
| `ModelBuilder` | `authorclustering/feature.py` `build_model` and `src/feature.py` `WordFrequency` |
| `Vectorizer` | both `_parallel_vectorize` variants, the feature flags, `vectorize`, the row check of `remove_features` |
| `Grouping`, `Purity` | `Evaluation.purity` and `ClusterEvaluator.evaluatePurity` |
| `CoreNLP` | post-processing of CoreNLP server replies |
| `MultiAuthorText` | the `Text` class |
| `AuthorCluster` | `AuthorCluster` |
| `TextMerger` | `synthetic_text_creator.py` |

The CoreNLP server is a parameter: a function from the request text to a parsed
document or a failure. The same holds for the part-of-speech tagger, the frequency
ranking, k-means and the random draws. Python's floating-point purities are exact
reals.

Two places where the repository's own files differ, and what the model does:

- `max` over a cluster's author counts in `src/authorclustering/clusterEvaluator.py`
  line 33 raises `ValueError` when the cluster has no members. `Purity.ClassPurity`
  fails with `ValueError` there.
- `src/exp_cluster.py` (lines 244-248) takes `L - n + 1` n-gram windows of a text of
  length `L`. `test/exp_cluster.py` (lines 194-198) and `src/authorclustering/feature.py`
  (lines 82-86) take `L - n`, which drops the last window. Both rules are modelled
  (`NGram.InclusiveWindows` and `NGram.ExclusiveWindows`) and each caller uses its own.

## Model

| member | source | states |
|---|---|---|
| SentenceChunker.AddSentence | src/chunk.py:14-23 | appends exactly one sentence and one author at the end, keeps both earlier lists and keeps them the same length |
| SentenceChunker.ClearAll | src/chunk.py:7-12 | after clearing, chunking with any positive size yields no chunks |
| SentenceChunker.AddAll | src/chunk.py:14-23 | one `add_sentence` per pair leaves the chunker's sentences and authors extended by the pairs' sentences and authors, in order, still one author per sentence |
| SentenceChunker.FixedLengthChunk | src/chunk.py:32-43 | raises exactly when the size is not positive; otherwise it makes the fewest chunks of `size` sentences that cover every sentence (`k*size >= n > (k-1)*size`) |
| SentenceChunker.ChunkCount | src/chunk.py:38-42 | the `range(0, n, size)` loop yields ceil(remaining/size) chunks from any start |
| SentenceChunker.ChunksFromStep | src/chunk.py:38-42 | the chunk at `start` holds the sentences and authors `start..min(start+size, n)`, followed by the chunks after it |
| SentenceChunker.FlattenChunkAuthors | src/chunk.py:38-40 | the chunks' author lists concatenate to the authors from `start` on |
| SentenceChunker.JoinChunkTexts | src/chunk.py:38-41 | joining the chunk texts with spaces gives the joined sentences from `start` on |
| SentenceChunker.ChunkSizes | src/chunk.py:38-40 | every chunk but the last has exactly `size` authors; every chunk has between 1 and `size` |
| SentenceChunker.FixedLengthChunkPartition | src/chunk.py:32-43 | the chunks partition the chunker: the authors are preserved in order, the text is preserved, and the sizes are `size` except for a shorter last chunk |
| SentenceChunker.AddAllThenChunk | src/chunk.py:14-43 | sentences added one by one to an empty chunker and then chunked give back exactly the authors of the added pairs, in the order they were added |
| FlushChunk.AppendSentences | src/exp_cluster.py:47-51 | appends one record per sentence, in order, all with the given author, and keeps the earlier records |
| FlushChunk.SimpleConcat | test/exp_cluster.py:47-65 | raises exactly for a size that is not positive; otherwise it yields `n / size + 1` chunks |
| FlushChunk.Generate | src/exp_cluster.py:53-76 | raises exactly for a size that is not positive; for a size above 1 it is identical to `simple_concat`; for size 1 it yields `n + 1` chunks |
| FlushChunk.GenerateMatches | src/exp_cluster.py:61-75 | the `generate` loop equals the `simple_concat` loop for sizes above 1, and for size 1 it emits one chunk per sentence |
| FlushChunk.KeptPositions | test/exp_cluster.py:55-63 | the positions the loop keeps are exactly those whose 1-based index is not a multiple of `size`, in increasing order |
| FlushChunk.KeptStep | test/exp_cluster.py:57-63 | position `k` is skipped when `k % size == 0` and appended otherwise |
| FlushChunk.SimpleConcatKeepsAuthors | test/exp_cluster.py:55-64 | the flushed author lists plus the pending list are exactly the authors of the kept sentences |
| FlushChunk.SimpleConcatKeepsText | test/exp_cluster.py:55-64 | the flushed texts plus the pending text are the kept sentences, each followed by one space |
| FlushChunk.SimpleConcatShape | test/exp_cluster.py:55-64 | after `k` sentences there are `k / size` flushed chunks of `size - 1` authors each, and `k % size` pending authors |
| FlushChunk.LoopsAgree | src/exp_cluster.py:61-74 | for every size above 1 the two loops agree on every prefix |
| FlushChunk.GenerateSizeOne | src/exp_cluster.py:61-67 | with size 1, chunk `j` holds exactly sentence `j` and its author, and the pending state repeats the last sentence |
| FlushChunk.SimpleConcatSizeOneLoop | test/exp_cluster.py:55-60 | with size 1, every sentence is dropped and every flushed chunk is empty |
| FlushChunk.SimpleConcatResult | test/exp_cluster.py:47-65 | the chunk count, the sizes `size - 1` and `n % size`, and the authors and text equal to those of the kept sentences |
| FlushChunk.SimpleConcatSizeOne | test/exp_cluster.py:55-65 | size 1 yields `n + 1` empty chunks |
| FlushChunk.GenerateSizeOneResult | src/exp_cluster.py:61-76 | size 1 yields one chunk per sentence plus a final chunk that repeats the last sentence, or an empty chunk when there are no sentences |
| FlushChunk.GenerateDropsSentence | src/exp_cluster.py:68-71 | with two sentences and size 2 the second sentence and its author appear in no chunk |
| NGram.InclusiveWindows | src/exp_cluster.py:244-248 | `max(0, L-n+1)` windows; window `i` is `s[i:i+n]` and has length `n` |
| NGram.ExclusiveWindows | src/authorclustering/feature.py:82-86 | `max(0, L-n)` windows; window `i` is `s[i:i+n]` and ends before the last element |
| NGram.ExclusiveDropsLastWindow | test/exp_cluster.py:194-198 | the `L-n` rule yields the `L-n+1` windows without the final one, and both are empty when `L < n` |
| NGram.WindowSet | src/exp_cluster.py:244-248 | the set holds exactly the windows `s[i:i+n]` for `i` in `0..L-n` |
| NGram.ExclusiveWindowSet | test/exp_cluster.py:194-198 | the set holds exactly the windows `s[i:i+n]` for `i` in `0..L-n-1` |
| NGram.WindowSetsDiffer | test/exp_cluster.py:196 | the two rules' sets differ by at most the final window `s[L-n:]` |
| NGram.JoinedWindowSet | src/exp_cluster.py:217-238 | every space-joined window of tokens is a key of the set |
| NGram.JoinedWindowSource | src/exp_cluster.py:217-238 | every key of the set is the space-joined form of some window |
| Tally.CountTokens | src/authorclustering/feature.py:89-96 | every key occurs in the tokens, every token is a key, each count is the token's multiplicity, and the keys are in first-occurrence order |
| Tally.CountedStep | src/authorclustering/feature.py:92-95 | one `model[token] = num + 1` step extends a correct count of a prefix to a correct count of the longer prefix |
| Tally.CountTotal | src/feature.py:39-46 | the counts add up to the number of tokens |
| Tally.Distinct | src/exp_cluster.py:274-278 | the dict keys in insertion order: no duplicates, and exactly the elements of the input |
| Tally.DistinctIsKeys | src/authorclustering/feature.py:91-96 | the keys of the counting dict are the distinct tokens in first-occurrence order |
| Tally.FirstMax | src/authorclustering/clusterEvaluator.py:33 | `max(d, key=d.get)` returns a maximal key, and no earlier key reaches its value |
| Tally.Majority | src/exp_cluster.py:271 | `Counter(xs).most_common(1)[0]` is a most frequent element, the first to occur among ties, paired with its multiplicity |
| Tally.MajorityOfCounts | src/authorclustering/clusterEvaluator.py:31-34 | the first maximum of a counting dict is the first most frequent element |
| Tally.MajorityIsUnique | src/exp_cluster.py:283 | an element is the majority exactly when it is the first most frequent element |
| Tally.MajorityCountBounds | src/exp_cluster.py:283 | the majority count is between 1 and the length, and equals the length exactly when all elements are equal |
| ModelFile.SaveLines | src/authorclustering/feature.py:102-104 | one `token count` line per key, in key order |
| ModelFile.SaveModel | src/feature.py:49-54 | the model file has one line per dictionary entry |
| ModelFile.SetKey | src/exp_cluster.py:95-148 | fails exactly when a line does not have the asserted number of fields; otherwise the key is the first fields joined by one space; character-gram keys are the first four characters |
| ModelFile.Entry | test/exp_cluster.py:81-102 | a line parses to a key that agrees with the set loader, paired with its count |
| ModelFile.KeysOf | src/exp_cluster.py:95-98 | the file loads exactly when every line has a key, with one key per line |
| ModelFile.LoadSet | src/exp_cluster.py:95-98 | the loaded set has no duplicates and holds exactly the keys of the lines |
| ModelFile.LoadOptional | src/exp_cluster.py:92-94 | a file that is not given loads as the empty set |
| ModelFile.SrcLoad | src/exp_cluster.py:89-148 | all seven sets load exactly when every given file loads, and each equals its file's set |
| ModelFile.Put | test/exp_cluster.py:85 | a dict assignment sets the value, and appends the key only when it is new |
| ModelFile.LoadDict | test/exp_cluster.py:81-85 | fails exactly when a line fails the field assertion or its count is not an optionally signed run of ASCII digits (see Left out) |
| ModelFile.LoadDictIsStore | test/exp_cluster.py:81-102 | loading is storing the parsed pairs one after another |
| ModelFile.StoreLastWins | test/exp_cluster.py:85 | a repeated key keeps the count of its last line |
| ModelFile.LoadDictContents | test/exp_cluster.py:81-102 | the loaded keys are exactly the parsed keys, each mapped to the count of its last line |
| ModelFile.TestLoad | test/exp_cluster.py:75-102 | the four dicts load exactly when every file parses, and each equals its file's dict |
| ModelFile.EntryOfSaveLine | src/authorclustering/feature.py:104 | a saved line of a readable key parses back to that key and count |
| ModelFile.KeysOfSaved | src/exp_cluster.py:95-98 | loading a saved model gives back its keys in order |
| ModelFile.LoadDictOfSaved | test/exp_cluster.py:81-85 | loading a saved model gives back its keys in order and every count |
| ModelFile.SaveThenLoad | src/authorclustering/feature.py:98-104 | save followed by load is the identity on a counting dict with readable keys: whitespace-free fields joined by single spaces, or four characters without a line break |
| ModelBuilder.BatchGroups | src/authorclustering/feature.py:38-46 | the corpus is cut into at least one batch |
| ModelBuilder.Batches | src/authorclustering/feature.py:38-46 | each batch is the concatenation of its group of lines |
| ModelBuilder.BatchGroupsStep | src/authorclustering/feature.py:42-45 | a line either starts a new batch, when the current one would reach 90000 characters, or extends the current one |
| ModelBuilder.BatchGroupsFlatten | src/authorclustering/feature.py:38-46 | the batches hold every line once, in order |
| ModelBuilder.BatchGroupsSizes | src/authorclustering/feature.py:42-45 | a batch of two or more lines stays under 90000 characters, and only the first batch can be empty |
| ModelBuilder.BatchGroupsFull | src/authorclustering/feature.py:42-44 | a batch is closed only when the next line would take it to 90000 characters or more |
| ModelBuilder.BatchesCoverCorpus | src/authorclustering/feature.py:38-46 | the concatenated batches are the whole corpus |
| ModelBuilder.LongFirstLine | src/authorclustering/feature.py:42-46 | a first line of 90000 or more characters produces an empty first batch |
| ModelBuilder.TaggedAligned | src/authorclustering/feature.py:55-58 | words and tags stay aligned when every parse is aligned |
| ModelBuilder.CharGrams | src/authorclustering/feature.py:60-62 | every character gram is a length-`n` window of some line that ends before the line's last character |
| ModelBuilder.CharGramsOfEveryLine | src/authorclustering/feature.py:60-62 | every such window of every line is collected |
| ModelBuilder.LineGrams | src/authorclustering/feature.py:82-86 | on a newline-terminated line the `L-n` rule yields the `L-n+1` windows of the line body |
| ModelBuilder.TagBigrams | src/authorclustering/feature.py:64-65 | bigram `i` is tag `i`, a space, then tag `i+1`, for `L-2` positions |
| ModelBuilder.TagBigramsAreJoinedWindows | src/authorclustering/feature.py:64-65 | every tag bigram is a space-joined window of two tags |
| ModelBuilder.TagBigramsCanonical | src/authorclustering/feature.py:64-65 | bigrams of whitespace-free tags are readable by the three-field loader |
| ModelBuilder.BuildCounts | src/authorclustering/feature.py:69-72 | the four counting dicts are well formed |
| ModelBuilder.BuildModel | src/authorclustering/feature.py:69-77 | each file loads back as the count of the tokens it was built from: the 4-gram file for lines read from a text file, the word, tag and tag-bigram files when the tagger's words or tags hold no whitespace; keys in first-occurrence order, each with its number of occurrences |
| ModelBuilder.BuildCountsTotals | src/authorclustering/feature.py:69-72 | each model's counts add up to the number of tokens it was built from |
| ModelBuilder.CharModelReadBack | src/authorclustering/feature.py:70-75 | the saved 4-gram model of lines read from a text file loads back unchanged with the character-gram format |
| ModelBuilder.CharGramsReadable | src/authorclustering/feature.py:82-86 | a gram never reaches a line's last character, so grams of such lines hold no line break |
| ModelBuilder.CountsReadAs | src/authorclustering/feature.py:89-104 | a saved count that reads back gives each token of the corpus with its number of occurrences, keys in first-occurrence order |
| ModelBuilder.CountsReadBack | src/authorclustering/feature.py:89-104 | a counted and saved model of readable tokens loads back unchanged |
| ModelBuilder.WordModelReadBack | src/authorclustering/feature.py:69-74 | a word model of whitespace-free words loads back unchanged with the two-field format |
| ModelBuilder.TagModelsReadBack | src/authorclustering/feature.py:71-77 | the tag and tag-bigram models load back unchanged with the two- and three-field formats |
| ModelBuilder.TokenizeEs | src/feature.py:25-36 | indexing `sentences[0]` fails on an empty reply; otherwise the token list is empty |
| ModelBuilder.WordFrequencyModel | src/feature.py:10-22 | for any language other than `es` the token list is empty; for `es` it is the tokenizer's result |
| ModelBuilder.EmptyModel | src/feature.py:18-22 | an empty token list saves as an empty file |
| Vectorizer.Presence | src/exp_cluster.py:207 | flag `i` is true exactly when reference feature `i` occurs in the chunk |
| Vectorizer.Block | src/exp_cluster.py:205-207 | a missing reference set contributes no flags, and a given one contributes one flag per feature |
| Vectorizer.Assemble | src/exp_cluster.py:203-241 | the vector is as long as all the given reference sets together |
| Vectorizer.AssembleEntry | src/exp_cluster.py:203-241 | the flag at a block's offset plus `i` reports the presence of that block's feature `i` |
| Vectorizer.SrcBlocks | src/exp_cluster.py:205-239 | the seven blocks, in the code's order |
| Vectorizer.SrcVector | src/exp_cluster.py:188-241 | the vector length is the total size of the given reference sets |
| Vectorizer.SrcWidth | src/exp_cluster.py:203-241 | the width of the blocks is the sum of the sizes of the given sets |
| Vectorizer.SrcVectorEntry | src/exp_cluster.py:203-241 | each flag reports the presence of its reference feature in its block's local feature set |
| Vectorizer.SrcWordEntry | src/exp_cluster.py:205-207 | the word flags come first and report membership in the parsed words |
| Vectorizer.SrcCharEntry | src/exp_cluster.py:209-211 | the character-gram flags follow the word flags and report membership in the chunk's `L-n+1` 4-grams |
| Vectorizer.SrcFourgramEntry | src/exp_cluster.py:235-239 | the last block is built from windows of words, not of tags |
| Vectorizer.SrcSelect | src/exp_cluster.py:162-168 | each reference set is passed exactly when its letter is in the feature string, and the tag four-gram set never is |
| Vectorizer.SrcVectorize | src/exp_cluster.py:150-179 | one vector per chunk, each the vector of that chunk and its parse |
| Vectorizer.RowCheck | src/exp_cluster.py:251-255 | an empty matrix raises `IndexError`; otherwise it fails exactly when some row differs in length from the first |
| Vectorizer.SrcVectorizeRowsAgree | src/exp_cluster.py:251-255 | the vectors of a non-empty chunk list all have the same length, the total size of the selected sets |
| Vectorizer.TestWidth | test/exp_cluster.py:171-191 | the width of the four blocks is the sum of their sizes |
| Vectorizer.TestVector | test/exp_cluster.py:160-198 | fails with `TypeError` exactly when a tag-bigram set is given and there are more than two tags; otherwise its length is the sum of the sizes |
| Vectorizer.TestVectorEntry | test/exp_cluster.py:171-191 | each flag reports its feature's presence in the block's local set |
| Vectorizer.TestVectorize | test/exp_cluster.py:104-122 | one vector per chunk, each covering the word and character-gram dicts in key order |
| Grouping.Members | src/exp_cluster.py:274-278 | a label's member list is non-empty exactly when the label occurs |
| Grouping.MembersCount | src/exp_cluster.py:274-278 | a label's member list is as long as the label's multiplicity |
| Grouping.MembersSpec | src/exp_cluster.py:274-278 | the member list holds exactly the chunk majorities of the chunks with that label |
| Purity.ChunkMajorities | src/exp_cluster.py:269-272 | fails with `IndexError` exactly when some chunk has no author; otherwise it gives each chunk's first most frequent author |
| Purity.MajorityCount | src/exp_cluster.py:282-283 | the majority count is between 1 and the cluster size, and equals the size exactly for a pure cluster |
| Purity.MajorityMap | src/exp_cluster.py:280-284 | every label gets a majority count between 1 and its member count |
| Purity.ClusterSizesTotal | src/exp_cluster.py:274-278 | the cluster sizes add up to the number of labels |
| Purity.EvaluationPurity | src/exp_cluster.py:262-292 | succeeds exactly when every chunk has an author and `0 < len(labels) <= len(chunks)`, and distinguishes `IndexError` from `ZeroDivisionError`; the value is the summed majorities over the number of labels |
| Purity.OverallPurity | src/exp_cluster.py:290 | fails with `ZeroDivisionError` exactly when there are no labels |
| Purity.MajorityTotalBelow | src/exp_cluster.py:280-284 | the summed majorities never exceed the number of labels |
| Purity.MajorityTotalOfPure | src/exp_cluster.py:280-284 | if every cluster is pure, the summed majorities equal the number of labels |
| Purity.PureOfMajorityTotal | src/exp_cluster.py:280-284 | if the summed majorities equal the number of labels, every cluster is pure |
| Purity.MajorityTotalPositive | src/exp_cluster.py:280-284 | a non-empty labelling has a positive majority total |
| Purity.SumMajorityBounds | src/exp_cluster.py:280-290 | the majority sum is between 1 and the number of labels, and reaches it exactly when every cluster is pure |
| Purity.EvaluationPurityRange | test/exp_cluster.py:230-241 | over exact reals, overall purity lies in (0, 1], and is 1 exactly when every cluster is pure (see Left out) |
| Purity.ClusterFigure | src/exp_cluster.py:283-288 | a cluster's reported author is its first most frequent member, and its purity is that author's count over the cluster size, in (0, 1] and 1 exactly for a pure cluster |
| Purity.ClusterReport | src/exp_cluster.py:281-288 | one report line per cluster, in first-label order, each naming the cluster's majority author with a purity in (0, 1] equal to that author's count over the cluster's size |
| Purity.AuthorIndices | src/authorclustering/clusterEvaluator.py:21-23 | fails with `IndexError` exactly when some sentence index is out of Python's index range; otherwise each index maps to its author id |
| Purity.ClusterAuthorIndices | src/authorclustering/clusterEvaluator.py:18-26 | the author ids of every cluster, failing exactly when one cluster's lookup fails |
| Purity.ClassPurity | src/authorclustering/clusterEvaluator.py:31-35 | fails with `ValueError` exactly on an empty cluster; otherwise the majority class is the first most frequent author id |
| Purity.ClassPurityRange | src/authorclustering/clusterEvaluator.py:32-35 | class purity is the majority's multiplicity over the cluster size, lies in (0, 1], and is 1 exactly for a single-author cluster |
| Purity.EvaluatePurity | src/authorclustering/clusterEvaluator.py:8-39 | `IndexError` for a bad sentence index, `ValueError` for an empty cluster, otherwise one majority and one purity per cluster, in cluster order |
| Purity.ClassPurities | src/authorclustering/clusterEvaluator.py:28-39 | fails exactly when some cluster is empty; otherwise entry `k` is cluster `k`'s class purity |
| Purity.EvaluatePurityRange | src/authorclustering/clusterEvaluator.py:31-37 | every cluster's purity lies in (0, 1], and is 1 exactly when its sentences share one author |
| MultiAuthorText.EmptyValid | src/authorclustering/multi_author_text.py:4-12 | a new text is consistent: no sentences, no ids, no authors |
| MultiAuthorText.AuthorId | src/authorclustering/multi_author_text.py:14-20 | returns the author's position, registering the author at the end only when new; sentences, ids and uniqueness are kept |
| MultiAuthorText.AuthorIdIdempotent | src/multi_author_text.py:9-15 | looking up the same author again changes nothing and returns the same id |
| MultiAuthorText.AppendAll | src/authorclustering/multi_author_text.py:41-43 | appends the sentences and one copy of the id per sentence, leaving everything else as it was |
| MultiAuthorText.AddSentences | src/authorclustering/multi_author_text.py:34-43 | appends the sentences, keeps the earlier ids and authors, registers the author at most once, and keeps the text consistent |
| MultiAuthorText.AddSentence | src/multi_author_text.py:30-31 | the new sentence is attributed to the given author |
| MultiAuthorText.AuthorIndexForSentence | src/authorclustering/multi_author_text.py:74-75 | succeeds exactly for Python-valid sentence indices, and gives a valid author index |
| MultiAuthorText.AuthorForAuthorIndex | src/authorclustering/multi_author_text.py:77-78 | succeeds exactly for Python-valid author indices |
| MultiAuthorText.AuthorForSentenceIndex | src/multi_author_text.py:33-34 | succeeds exactly for Python-valid sentence indices, and gives a registered author |
| MultiAuthorText.AddSentencesLookup | src/authorclustering/multi_author_text.py:40-43 | the added sentences are attributed to the given author, and earlier attributions are unchanged |
| MultiAuthorText.GetTextAfterAdd | src/authorclustering/multi_author_text.py:22-23 | the text after adding sentences is the space-join of the old sentences followed by the new ones |
| MultiAuthorText.TokenizedByWord | src/authorclustering/multi_author_text.py:28-30 | the words are those the parser finds in the space-joined text, and it fails exactly when that parse fails; an empty text tokenizes to no words, and no word contains whitespace |
| MultiAuthorText.FixedLengthChunk | src/authorclustering/multi_author_text.py:60-69 | raises for a size that is not positive; otherwise it succeeds only when there are no sentences, because the loop body raises `TypeError` (see Findings) |
| MultiAuthorText.ChunksFrom | src/authorclustering/multi_author_text.py:66-68 | every chunk's sentences are the sentences at its ids |
| MultiAuthorText.IntendedChunk | src/authorclustering/multi_author_text.py:53-61 | the documented behaviour: raises for a size that is not positive; otherwise it gives chunk id lists and sentence lists that match |
| MultiAuthorText.ChunksFromCover | src/authorclustering/multi_author_text.py:66-68 | the chunks' ids concatenate to every index from `start` on |
| MultiAuthorText.ChunksFromSizes | src/authorclustering/multi_author_text.py:66-68 | every chunk but the last holds `size` ids, and none is empty |
| MultiAuthorText.IntendedChunkPartition | src/authorclustering/multi_author_text.py:53-58 | the intended chunking partitions `0..n-1` in order into chunks of `size`, with a shorter last chunk |
| MultiAuthorText.DocstringExample | src/authorclustering/multi_author_text.py:57-69 | the docstring's five-sentence example holds for the intended chunking, while the code as written raises |
| AuthorCluster.FeatureVector | src/authorclustering/authorcluster.py:14-16 | flag `i` is true exactly when vocabulary word `i` occurs in the chunk |
| AuthorCluster.FeatureVectorIsPresence | src/authorclustering/authorcluster.py:15 | this vector is the presence vector the vectorizer builds |
| AuthorCluster.Accumulate | src/authorclustering/authorcluster.py:27-31 | the vocabulary keeps its earlier words and gains at most 500 ranked words, in rank order |
| AuthorCluster.Slot | src/authorclustering/authorcluster.py:43 | a label indexes a slot exactly when it is a Python-valid index, including negative ones |
| AuthorCluster.Shared | src/authorclustering/authorcluster.py:40-43 | the single shared list ends up holding every labelled chunk's ids in order |
| AuthorCluster.GroupAliased | src/authorclustering/authorcluster.py:40-44 | as written: every slot is the same list, holding all chunk ids |
| AuthorCluster.Groups | src/authorclustering/authorcluster.py:40-44 | one group per slot, failing exactly when a label is out of range or labels outnumber chunks |
| AuthorCluster.GroupByLabel | src/authorclustering/authorcluster.py:40-44 | the intended grouping, with independent slots |
| AuthorCluster.GroupsPick | src/authorclustering/authorcluster.py:42-43 | slot `j` holds the ids of exactly the chunks labelled `j`, in order |
| AuthorCluster.GroupsPartition | src/authorclustering/authorcluster.py:42-44 | the groups together hold every labelled chunk's ids exactly once |
| AuthorCluster.OneClusterAgrees | src/authorclustering/authorcluster.py:40-44 | with one cluster, the aliased and the intended groupings coincide |
| AuthorCluster.AliasedSlotsShareIds | src/authorclustering/authorcluster.py:40-43 | two labels and two chunks put both chunks in both slots |
| AuthorCluster.GroupedSlotsSeparate | src/authorclustering/authorcluster.py:19-25 | the intended grouping puts each chunk only in its own slot |
| AuthorCluster.ClusterAsWritten | src/authorclustering/authorcluster.py:19-44 | as written: the vocabulary grows by at most 500 words and keeps its earlier words; a size that is not positive fails; it can succeed only on a text without sentences, and only when the clusterer labels zero vectors without raising |
| AuthorCluster.NoChunkGroups | src/authorclustering/authorcluster.py:40-43 | with no chunk ids, both groupings give empty slots when there is no label and otherwise raise the same error at the first label |
| AuthorCluster.ClusterAsWrittenFails | src/authorclustering/authorcluster.py:34 | as written, every text with a sentence raises `TypeError` once the tokenizer answers and the size is positive |
| AuthorCluster.ClusterAsWrittenAgreesOnEmptyText | src/authorclustering/authorcluster.py:27-44 | on a text without sentences the written and the corrected composition give the same result, whatever the clusterer does with no vectors |
| AuthorCluster.Cluster | src/authorclustering/authorcluster.py:19-44 | with the corrected chunking and grouping (see Findings): the vocabulary grows by at most 500 words and keeps its earlier words; a size that is not positive fails; a clusterer failure is passed on; the result has one group per slot |
| AuthorCluster.ClusterPartition | src/authorclustering/authorcluster.py:33-44 | with the corrected chunking and grouping, the clusters hold every sentence index of the text exactly once |
| CoreNLP.Parse | src/authorclustering/corenlp.py:48-75 | blank text gives empty lists without a server call; otherwise it fails exactly when the call fails; words and tags are aligned and contain no whitespace |
| CoreNLP.SrcParse | src/corenlp.py:34-51 | fails exactly when the server call fails; otherwise one word and one tag per token of the reply, in token order, words exactly as sent |
| CoreNLP.SrcParseOrder | src/corenlp.py:45-51 | token `j` of sentence `i` lands at its running offset, with its word unchanged and its tag beside it |
| CoreNLP.ParseOrder | src/authorclustering/corenlp.py:68-74 | token `j` of sentence `i` lands at its running offset, with its whitespace removed and its tag beside it |
| CoreNLP.ParseValue | src/authorclustering/corenlp.py:65-75 | the result is the stripped words and the tags of all tokens in document order |
| CoreNLP.ParseStripsSrcWords | src/authorclustering/corenlp.py:72 | on non-blank text the two parsers agree except that this one removes whitespace from each word |
| CoreNLP.BlankParseSkipsServer | src/authorclustering/corenlp.py:56-57 | blank text succeeds even when the server is down, where the other parser fails |
| CoreNLP.RemoveNewlines | src/authorclustering/corenlp.py:84 | the result contains no newline, is no longer than the input, and leaves newline-free text unchanged |
| CoreNLP.RemoveNewlinesSplice | src/authorclustering/corenlp.py:84 | removing newlines distributes over concatenation |
| CoreNLP.Spans | src/authorclustering/corenlp.py:95-101 | fails with `IndexError` exactly when some sentence has no tokens; otherwise one span per sentence |
| CoreNLP.SplitSentences | src/authorclustering/corenlp.py:77-101 | text that is blank once newlines are removed gives no sentences; otherwise one piece per sentence of the reply, running from its first token's begin offset to its last token's end offset in the newline-free text, each a newline-free slice of it |
| CoreNLP.SpanIsSlice | src/authorclustering/corenlp.py:97-100 | each sentence span is a slice of the text and contains no newline |
| CoreNLP.TiledSpansConcat | src/authorclustering/corenlp.py:95-101 | when sentence offsets tile the text, the spans concatenate to the text from the first offset to the last |
| CoreNLP.TrimTrailingSlash | src/corenlp.py:7-10 | an empty URL raises `IndexError`; otherwise at most one trailing slash is removed, and only when present |
| CoreNLP.TrimOnlyOneSlash | src/corenlp.py:8-9 | a URL ending in two slashes keeps one |
| TextMerger.AddText | src/synthetic_text_creator.py:14-18 | appends one record with the given author and text and keeps the earlier ones |
| TextMerger.TextsByAuthor | src/synthetic_text_creator.py:20-21 | keeps exactly the records whose author matches ignoring case |
| TextMerger.TextsByAuthorAfterAdd | src/synthetic_text_creator.py:14-21 | adding a text extends the author's list by that text exactly when the authors match ignoring case |
| TextMerger.TextsByAuthorIgnoresCase | src/synthetic_text_creator.py:21 | the filter does not depend on the case of the query |
| TextMerger.Use | src/synthetic_text_creator.py:38-45 | succeeds exactly when sentence splitting succeeds; it appends the text and a metadata entry covering its character range |
| TextMerger.Merge | src/synthetic_text_creator.py:32-46 | succeeds exactly when every chosen text splits; the merged text is the chosen texts in order and each metadata entry records its text's range and author |
| TextMerger.EntriesContiguous | src/synthetic_text_creator.py:42 | each text starts one character after the previous one ends |
| TextMerger.Pick | src/synthetic_text_creator.py:35-45 | a drawn text already done is skipped; otherwise it is used and marked done |
| TextMerger.DrawIsMerge | src/synthetic_text_creator.py:32-45 | the random loop succeeds exactly when merging the distinct draws in first-draw order succeeds, gives the same result, and marks exactly the drawn texts done |
| TextMerger.EachTextOnce | src/synthetic_text_creator.py:32-37 | when the draws cover every text, each text is merged exactly once |
| TextMerger.GenerateText | src/synthetic_text_creator.py:23-46 | non-zero bounds raise; otherwise it succeeds exactly when every text splits, and the result is a consistent `Text` |
| TextMerger.GenerateTextContents | src/synthetic_text_creator.py:38-46 | the returned text, metadata and `Text` are those of the merge in first-draw order |
| TextMerger.NoTexts | src/synthetic_text_creator.py:32-34 | with no texts the result is empty strings and an empty `Text` |

## Left out

- The HTTP calls to the CoreNLP server are a parameter. Connection errors and JSON decoding are not modelled, and neither are missing JSON keys (`KeyError`). The split reply is taken to have at least the fields read.
- `lib/pycorenlp` is not part of this model. Only what the core does with a server reply is modelled.
- The CoreNLP constructor of `src/authorclustering/corenlp.py` only stores the URL and is not modelled.
- `nltk.FreqDist.most_common(500)` is a ranking parameter. `AuthorCluster.Accumulate` only bounds how many words it adds.
- `sklearn` `KMeans` is a labelling parameter (`AuthorCluster.Labeller`) that may fail. When scikit-learn raises (no samples, fewer samples than clusters, fewer than one cluster) is not modelled: any labeller is allowed.
- `VarianceThreshold` in `remove_features` is not modelled; only the row-length check before it is.
- `random.randint` is a sequence of draws supplied by the caller. The loop in `generateText` ends only once every text has been drawn, which the caller's draws must ensure.
- `TextMerger.GenerateText`: the source tests the bounds with `is not 0`, an identity test. It is modelled as `!= 0`, which is what small integers give in CPython.
- `PyStr.Lower`: only ASCII letters are lower-cased. Python's full Unicode `str.lower` is not modelled.
- `TextMerger.SameAuthor` inherits the ASCII-only lower-casing of `PyStr.Lower`.
- Prints, logging, file reading and writing, `glob`, `pickle` and `writeToFile` are not modelled. Files are sequences of lines, and written files are strings or line sequences.
- `multiprocessing.Pool` is not modelled. The vectors are computed in chunk order, which is the order `pool.map` returns.
- Python `set` iteration order is unspecified. Reference sets are dup-free sequences, and the vector lemmas hold for any such order.
- Floating-point division is modelled as exact real division.
- The report strings of `Evaluation.purity` are modelled as tuples. The number formatting is not modelled.
- `src/authorcluster.py` does not parse in Python 3 and is not part of this model. `src/authorclustering/authorcluster.py` is modelled instead.
- The `AuthorCluster` constructor builds a `Chunker` with an argument that `Chunker` does not accept. The constructor is not modelled, and `cluster` starts from a given vocabulary.
- `getTextTokenizedBySentence` returns the sentence list unchanged and is not modelled.
- The `Paragraphs` and `Language` fields of `Text` are never used and are not modelled.
- The `main` functions, argument parsing and test drivers that need a running server are not modelled.
- Tokenizer wrappers around NLTK are not modelled.
- `ModelBuilder.TokenizeEs`: the OpenIE reply is read only for a debug print. Only the `IndexError` on an empty sentence list is modelled.
- `TextMerger.NoTexts` is a single concrete case. The general properties are in `TextMerger.GenerateText`.
- AuthorCluster.Cluster, AuthorCluster.ClusterPartition: compose the corrected `MultiAuthorText.IntendedChunk` and `AuthorCluster.GroupByLabel`, not the code as written. The code as written is `AuthorCluster.ClusterAsWritten`, which raises `TypeError` on every text with a sentence.
- PyStr.PyInt / ModelFile.LoadDict: `int()` also accepts underscores between digits (`1_000`) and non-ASCII Unicode digits. Those counts are modelled as a `ValueError`. Saved models never contain them.
- Purity.EvaluationPurityRange: holds over exact reals only. In floating point `(1 / len(labels)) * sum_majority` with 49 labels, all in pure clusters, gives `0.9999999999999999`, so the source can report less than 1 for a pure clustering.
- The CoreNLP server can fail: `CoreNLP.Server` returns a failure, and every operation that calls it passes the failure on. One `Server` answers both the `tokenize,ssplit,pos` request of `CoreNLP.Parse` and the `tokenize,ssplit` request of `CoreNLP.SplitSentences`; which annotators are asked for is not modelled.
- `ModelBuilder.Tagger` cannot fail and is not tied to `CoreNLP.Parse`. A failed tagging request in `build_model` is not modelled.

## Findings

| source | as written | input that shows it | evidently intended | confidence | as-written member | corrected member |
|---|---|---|---|---|---|---|
| src/authorclustering/multi_author_text.py:67-68 | `min(len(self.Sentences, i + chunk_size))` passes two arguments to `len`, so any text with a sentence raises `TypeError` | a `Text` with sentences `sen1`..`sen5` and `chunk_size` 3, the docstring's own example | the docstring's result `([[0,1,2],[3,4]], [['sen1','sen2','sen3'],['sen4','sen5']])`, which needs both `min(len(self.Sentences), i + chunk_size)` and `.append(...)` in place of `+=` on both lines; the first fix alone gives the flat lists `[0,1,2,3,4]` and `['sen1',...,'sen5']`. `MultiAuthorText.IntendedChunk` models the docstring's nested result | not executed | MultiAuthorText.FixedLengthChunk | MultiAuthorText.IntendedChunkPartition |
| src/authorclustering/authorcluster.py:40-43 | `[[]] * numClusters` makes every slot the same list, so `ret[label] += ...` adds each chunk's ids to every cluster | two clusters, labels `[0, 1]`, chunk ids `[[0], [1]]` give `[[0, 1], [0, 1]]` | independent lists, giving `[[0], [1]]` | not executed | AuthorCluster.AliasedSlotsShareIds | AuthorCluster.GroupsPartition |
