# diseases-risk-factors: a verified model of the answer pipeline and the server's parsers

The system finds risk factors of diseases in PubMed articles. A question-answering model reads
the articles of each disease, and a GraphQL server stores diseases, articles, classification
items and question/answer sets (QAs). This project models in Dafny the logic of that system
that computes values, and proves properties of it. It covers:

- **Question answering** (`question_answering_model.py`):
  - the search for candidate answer spans over the model's logits (`SpanExtraction`);
  - the best answer of the metrics code (`SpanExtraction`);
  - the per-article top-ten selection with its 1.0 score floor (`Aggregation`);
  - the case-insensitive aggregation into the answers dictionary (`Aggregation`);
  - the consolidation by a 60% threshold, a stable sort and the removal of contained answers
    (`Consolidation`);
  - the whole article loop of `evaluate_async` (`Evaluation`);
  - the offset masking of the tokenized windows (`SpanExtraction`);
  - the training-label search and flattening of `train_async` (`Training`).

  Python's stable `sort(reverse=True)` is `StableSort`, and the few `str` operations used are
  `PyStr`. A Python dict is an insertion-ordered sequence of entries.
- **KEGG DISEASE reader** (`kegg/diseases_fetcher.go`): `List` and `Fetch` over the lines of
  the response body (`Kegg`).
- **PubMed abstract assembly** (`pubmed/entrez_searcher.go`): the `AbstractText` sections
  become one text (`PubMed`).
- **Data-access layer** (`dal/dal.go`):
  - the merge in `GetClassificationItems`;
  - the counts and answer-length extremes of `GetStatistics`;
  - the disease converters;
  - the question rebuild of `UpdateQA` (`Dal`).
- **Server helpers** (`utils/utils.go`): `Deref`, `Ptr`, `DerefSlice`, `MapDeref`,
  `Contains` and `Map` (`Utils`).
- **Management UI helpers** (`management-ui/src/utils/functions.ts`): `truncateWords` and
  `clamp` (`UiFunctions`).

How the Go code is modelled:

- A pointer is an `Option`; `None` is `nil`.
- A Go slice is `Slice<T>`, which keeps a nil slice apart from an empty one.
- A Go panic, and a Python `IndexError`, is a `Failure` of `Result`. `IndexOutOfRange` is an
  out-of-range index; `NilDereference` is a read through a nil pointer.
- The functions of Go's `strings` package used here are in `GoStrings`.
- `len` of a Go string is the byte length of its UTF-8 encoding.

Where the code works step by step, the model does too: methods with loops, each proved against
a specification function. The properties are then proved about those functions as lemmas.

## Model

| member | source | states |
|---|---|---|
| SpanExtraction.PairCandidate | algorithm/diseases_risk_factors/domain/question_answering/question_answering_model.py:456-472 | A (start, end) pair yields a candidate exactly when all of these hold: both offsets are present, the end token is not before the start token, the text is the context between the two offsets and is no longer than `max_answer_length`, and the score is the sum of the two logits. |
| SpanExtraction.CollectCandidates | algorithm/diseases_risk_factors/domain/question_answering/question_answering_model.py:448-472 | The loops over the features and the start and end indexes give the candidates of every pair, feature after feature. A candidate is in the list exactly when some pair of some feature passes every check. |
| SpanExtraction.CollectFeature | algorithm/diseases_risk_factors/domain/question_answering/question_answering_model.py:453-472 | The two inner loops give the candidates of every start index against every end index of one feature, in order. |
| SpanExtraction.CollectRow | algorithm/diseases_risk_factors/domain/question_answering/question_answering_model.py:456-472 | The innermost loop gives the candidates of one start index against every end index, in order. |
| SpanExtraction.RowCandidatesAreSpans | algorithm/diseases_risk_factors/domain/question_answering/question_answering_model.py:456-472 | A candidate is in one start index's row exactly when some end index of the row makes it a valid span. |
| SpanExtraction.GridCandidatesAreSpans | algorithm/diseases_risk_factors/domain/question_answering/question_answering_model.py:455-472 | A candidate is in one feature's candidates exactly when some (start, end) pair of the feature makes it a valid span. |
| SpanExtraction.CandidatesAreExactlySpans | algorithm/diseases_risk_factors/domain/question_answering/question_answering_model.py:448-472 | Span validity and completeness: the candidates of an article are exactly the valid spans of its features. |
| SpanExtraction.MaskOffsets | algorithm/diseases_risk_factors/domain/question_answering/question_answering_model.py:412-416 | An offset is kept exactly when its token's sequence id is 1, and then it is unchanged. The length is unchanged. |
| SpanExtraction.MaskedSpanLiesInContext | algorithm/diseases_risk_factors/domain/question_answering/question_answering_model.py:412-416 | After masking, a span starts and ends on context tokens. Its text is the context between the tokenizer's own offsets of those tokens. |
| SpanExtraction.BestAnswer | algorithm/diseases_risk_factors/domain/question_answering/question_answering_model.py:352-359 | With no candidate the prediction is empty. Otherwise it is the text of the first candidate with the highest score, as Python's `max` picks it. |
| PyStr.Lower | algorithm/diseases_risk_factors/domain/question_answering/question_answering_model.py:480 | `lower()` keeps the length and lower-cases each character. |
| PyStr.LowerIsLower | algorithm/diseases_risk_factors/domain/question_answering/question_answering_model.py:480 | A lower-cased text is lower case, and lower-casing it again changes nothing. |
| PyStr.Slice | algorithm/diseases_risk_factors/domain/question_answering/question_answering_model.py:464 | `context[a:b]` clips both bounds to the length. A slice whose end lies before its start is empty. |
| StableSort.SortDescFacts | algorithm/diseases_risk_factors/domain/question_answering/question_answering_model.py:477 | The sort gives the same elements (a permutation) in non-increasing key order. |
| StableSort.SortDescIsStable | algorithm/diseases_risk_factors/domain/question_answering/question_answering_model.py:505 | Elements with equal keys keep their input order. |
| StableSort.SortDescOfSorted | algorithm/diseases_risk_factors/domain/question_answering/question_answering_model.py:505 | A list already in order is left unchanged. |
| StableSort.InsertFacts | algorithm/diseases_risk_factors/domain/question_answering/question_answering_model.py:477 | Inserting into a sorted list keeps it sorted, adds exactly the new element, and grows the list by one. |
| Aggregation.Find | algorithm/diseases_risk_factors/domain/question_answering/question_answering_model.py:486 | The lookup `text in predicted_answers` finds an entry with the key. When it finds none, no entry has the key. |
| Aggregation.AggregateArticle | algorithm/diseases_risk_factors/domain/question_answering/question_answering_model.py:474-491 | One article's loop sorts and cuts its candidates to ten, then folds each candidate that reaches the floor into the dictionary, in order. |
| Aggregation.Aggregate | algorithm/diseases_risk_factors/domain/question_answering/question_answering_model.py:442-491 | The loop over the articles folds every article's surviving candidates into an initially empty dictionary, article after article. |
| Aggregation.TopKIsBest | algorithm/diseases_risk_factors/domain/question_answering/question_answering_model.py:474-478 | At most ten candidates are kept, in non-increasing score order, all of them candidates of the article. None left out scores higher than one kept. |
| Aggregation.ContributionsAreSurvivors | algorithm/diseases_risk_factors/domain/question_answering/question_answering_model.py:479-484 | A contribution comes from a kept candidate scoring at least 1.0, keyed by its lower-cased text. Every such candidate contributes. |
| Aggregation.AbsorbSummarizes | algorithm/diseases_risk_factors/domain/question_answering/question_answering_model.py:486-491 | Raising a found entry's score and adding the article, or appending a new entry, keeps the dictionary a summary of what was absorbed. |
| Aggregation.FoldSummarizes | algorithm/diseases_risk_factors/domain/question_answering/question_answering_model.py:480-491 | After the fold the keys are distinct and every contribution's key is present. Each key's score is the largest of its contributions, and its article ids are exactly their articles. |
| Aggregation.FoldKeysComeFromContributions | algorithm/diseases_risk_factors/domain/question_answering/question_answering_model.py:486-491 | Every key of the dictionary is the key of some contribution. |
| Aggregation.ContributionsReachFloor | algorithm/diseases_risk_factors/domain/question_answering/question_answering_model.py:479-484 | Every contribution of every article scores at least 1.0. |
| Aggregation.AggregatedScoresReachFloor | algorithm/diseases_risk_factors/domain/question_answering/question_answering_model.py:483-491 | Every score of the aggregated dictionary is at least 1.0. |
| Aggregation.KeysAreLowerCase | algorithm/diseases_risk_factors/domain/question_answering/question_answering_model.py:480 | Every key of the aggregated dictionary is lower case. |
| Aggregation.FoldAppend | algorithm/diseases_risk_factors/domain/question_answering/question_answering_model.py:442-491 | Folding two runs of contributions is folding the first and then the second. |
| Aggregation.AggregateOfNothing | algorithm/diseases_risk_factors/domain/question_answering/question_answering_model.py:441 | No article gives an empty dictionary. |
| Aggregation.ContributionsOfOne | algorithm/diseases_risk_factors/domain/question_answering/question_answering_model.py:476-484 | An article with a single candidate contributes it exactly when it reaches the floor. |
| Aggregation.FoldOfSameKey | algorithm/diseases_risk_factors/domain/question_answering/question_answering_model.py:486-489 | Two contributions with the same key make one entry, with the higher score and both articles. |
| Aggregation.HypertensionExample | algorithm/diseases_risk_factors/domain/question_answering/question_answering_model.py:474-491 | "hypertension" at 5.0 and "Hypertension" at 3.0 from two articles aggregate into one lower-cased entry: score 5.0, both articles. |
| Aggregation.BelowFloorExample | algorithm/diseases_risk_factors/domain/question_answering/question_answering_model.py:483-484 | A candidate at 0.9 contributes nothing, although it ranks first. |
| Consolidation.MaxScore | algorithm/diseases_risk_factors/domain/question_answering/question_answering_model.py:496 | The maximum is the score of some entry, and no entry scores higher. |
| Consolidation.AboveThreshold | algorithm/diseases_risk_factors/domain/question_answering/question_answering_model.py:502 | An entry is kept exactly when its score reaches the threshold. |
| Consolidation.ResolveContainment | algorithm/diseases_risk_factors/domain/question_answering/question_answering_model.py:510-522 | The loop over the sorted answers accepts what `Resolve` accepts. Its deleting `elif` branch is proved unreachable. |
| Consolidation.Consolidate | algorithm/diseases_risk_factors/domain/question_answering/question_answering_model.py:494-526 | The consolidation returns `ConsolidateSpec`: nothing for an empty dictionary; otherwise the threshold, the stable sort and the containment loop, in that order. |
| Consolidation.ResolveFromInput | algorithm/diseases_risk_factors/domain/question_answering/question_answering_model.py:510-522 | Every accepted answer is one of the sorted answers. |
| Consolidation.ResolvePrefix | algorithm/diseases_risk_factors/domain/question_answering/question_answering_model.py:518-520 | An accepted answer is never removed by a later one. |
| Consolidation.ResolveIsSorted | algorithm/diseases_risk_factors/domain/question_answering/question_answering_model.py:505-522 | The accepted answers keep the non-increasing score order. |
| Consolidation.AcceptedIsUndominated | algorithm/diseases_risk_factors/domain/question_answering/question_answering_model.py:512-516 | No accepted answer is contained in another accepted answer that scores strictly higher. |
| Consolidation.DroppedIsDominated | algorithm/diseases_risk_factors/domain/question_answering/question_answering_model.py:512-516 | A dropped answer is contained in an accepted answer that scores strictly higher. |
| Consolidation.ResolveKeepsExactlyUndominated | algorithm/diseases_risk_factors/domain/question_answering/question_answering_model.py:510-522 | An answer is accepted exactly when no accepted answer contains its text and scores strictly higher. |
| Consolidation.ResolveOfUndominated | algorithm/diseases_risk_factors/domain/question_answering/question_answering_model.py:510-522 | A list none of whose answers is ruled out by an earlier one is accepted whole. |
| Consolidation.ResolveIdempotent | algorithm/diseases_risk_factors/domain/question_answering/question_answering_model.py:510-522 | Resolving the accepted answers again changes nothing. |
| Consolidation.FirstIsAccepted | algorithm/diseases_risk_factors/domain/question_answering/question_answering_model.py:510-522 | The first sorted answer is always accepted, first. |
| Consolidation.RankedFacts | algorithm/diseases_risk_factors/domain/question_answering/question_answering_model.py:496-505 | The ranked answers are sorted, and they are exactly the answers reaching 60% of the best score. |
| Consolidation.ConsolidateFromInput | algorithm/diseases_risk_factors/domain/question_answering/question_answering_model.py:494-524 | Every final answer is an aggregated one and reaches 60% of the best score. |
| Consolidation.ConsolidateIsSorted | algorithm/diseases_risk_factors/domain/question_answering/question_answering_model.py:505-524 | The final answers are in non-increasing score order. |
| Consolidation.ConsolidateKeepsExactlyUndominated | algorithm/diseases_risk_factors/domain/question_answering/question_answering_model.py:510-524 | An answer reaching the threshold is kept exactly when no kept answer contains its text and scores strictly higher. |
| Consolidation.BestAnswerIsKept | algorithm/diseases_risk_factors/domain/question_answering/question_answering_model.py:494-524 | When the best score is not negative, a best-scoring answer is kept, and it comes first. |
| Consolidation.NegativeBestKeepsNothing | algorithm/diseases_risk_factors/domain/question_answering/question_answering_model.py:496-502 | A negative best score lies below its own 60% threshold, so nothing is kept. |
| Consolidation.ConsolidateKeepsMax | algorithm/diseases_risk_factors/domain/question_answering/question_answering_model.py:494-524 | When the best score is not negative, the final answers keep the best score of the aggregated ones. |
| Consolidation.RankedOfConsolidated | algorithm/diseases_risk_factors/domain/question_answering/question_answering_model.py:496-505 | When the best score is not negative, ranking the final answers again gives them back. |
| Consolidation.ConsolidateIdempotent | algorithm/diseases_risk_factors/domain/question_answering/question_answering_model.py:494-526 | Consolidating the final answers again changes nothing. |
| Consolidation.ConsolidatePair | algorithm/diseases_risk_factors/domain/question_answering/question_answering_model.py:494-524 | Two ordered answers that both reach the threshold are resolved as the loop resolves them. Any answer below the threshold is dropped. |
| Consolidation.ObesityExample | algorithm/diseases_risk_factors/domain/question_answering/question_answering_model.py:494-524 | Given "obesity" 10.0, "severe obesity" 9.0 and "smoking" 2.0: the threshold 6.0 drops "smoking", and both obesity answers are kept. |
| Consolidation.ContainedAnswerIsDropped | algorithm/diseases_risk_factors/domain/question_answering/question_answering_model.py:512-516 | "obesity" at 9.0 is dropped when "severe obesity" at 10.0 was accepted. |
| Evaluation.EvaluateAnswers | algorithm/diseases_risk_factors/domain/question_answering/question_answering_model.py:437-526 | The article loop and the consolidation return the consolidation of the fold of every article's surviving candidates. |
| Evaluation.EvaluateFacts | algorithm/diseases_risk_factors/domain/question_answering/question_answering_model.py:474-526 | Every returned answer is lower case, comes unchanged from the aggregated dictionary, and reaches 60% of the best score. The answers are in non-increasing score order. |
| Evaluation.BestAggregatedAnswerIsReturned | algorithm/diseases_risk_factors/domain/question_answering/question_answering_model.py:474-526 | The best aggregated answer always survives. When something was aggregated, the best score is at least 1.0, and the first answer returned has that score. When nothing was aggregated, nothing is returned. |
| Evaluation.EvaluateOfNothing | algorithm/diseases_risk_factors/domain/question_answering/question_answering_model.py:525-526 | With no article, nothing is returned. |
| Training.LabelAnswer | algorithm/diseases_risk_factors/domain/question_answering/question_answering_model.py:183-205 | The label search fails exactly when the context scans run off the end. Otherwise the window is the first run of context tokens. The labels are (0, 0) for an answer outside the window, or else the last token starting at or before the answer and the first token ending at or after it. |
| Training.ContextWindowIsUnique | algorithm/diseases_risk_factors/domain/question_answering/question_answering_model.py:183-189 | The context window is determined by the sequence ids. |
| Training.NatToString | algorithm/diseases_risk_factors/domain/question_answering/question_answering_model.py:105 | `f"{idx}"` has at least one digit, and exactly one for a number below ten. |
| Training.NatToStringInjective | algorithm/diseases_risk_factors/domain/question_answering/question_answering_model.py:105 | Different numbers give different digit strings. |
| Training.Flatten | algorithm/diseases_risk_factors/domain/question_answering/question_answering_model.py:96-121 | The four nested loops build the entries of every answer, in input order. |
| Training.AppendEntry | algorithm/diseases_risk_factors/domain/question_answering/question_answering_model.py:98-121 | The loops over one entry's paragraphs append the entries of all their answers. |
| Training.AppendParagraph | algorithm/diseases_risk_factors/domain/question_answering/question_answering_model.py:100-121 | The loops over one paragraph's questions append the entries of their answers. |
| Training.FlattenQAIsAnswers | algorithm/diseases_risk_factors/domain/question_answering/question_answering_model.py:102-121 | A question gives one entry per answer, in answer order. |
| Training.FlattenLength | algorithm/diseases_risk_factors/domain/question_answering/question_answering_model.py:96-121 | Flattening gives exactly one training entry per answer of the input. |
| Training.SingleAnswerEntryFacts | algorithm/diseases_risk_factors/domain/question_answering/question_answering_model.py:104-118 | The entry of one answer holds that answer alone. The question, context and title are copied, and the id gets `-idx` appended. |
| Training.SingleAnswerIdsDistinct | algorithm/diseases_risk_factors/domain/question_answering/question_answering_model.py:105 | The answers of one question get pairwise distinct ids. |
| Training.FlattenHoldsOneAnswer | algorithm/diseases_risk_factors/domain/question_answering/question_answering_model.py:104-121 | Every flattened entry has one paragraph, holding one question with one answer. |
| Kegg.List | graphql-server/internal/dal/kegg/diseases_fetcher.go:31-37 | `List` fails exactly when some line has no field. Otherwise it gives the first field of every line, in order, and a nil slice exactly for no lines. |
| Kegg.Fetch | graphql-server/internal/dal/kegg/diseases_fetcher.go:48-96 | `Fetch` returns the disease built from the state after all lines, or the failure of the first line that panics. |
| Kegg.ReadRecord | graphql-server/internal/dal/kegg/diseases_fetcher.go:48-81 | The scanner loop, with its NAME and DBLINKS inner loops, reaches the state of the line-by-line reading. |
| Kegg.ReadNames | graphql-server/internal/dal/kegg/diseases_fetcher.go:56-64 | The NAME inner loop stops either after the line that ends the block, back at the outer loop, or at the end of the input. Its state is the reading's state at that line. |
| Kegg.ReadLinks | graphql-server/internal/dal/kegg/diseases_fetcher.go:67-75 | The DBLINKS inner loop either reports the panic of a line without `:`, and then the reading fails, or stops in the reading's state at that line. |
| Kegg.ToDisease | graphql-server/internal/dal/kegg/diseases_fetcher.go:86-96 | The id, names, category and description are copied. The links object always exists and holds the lists under `ICD-10`, `ICD-11` and `MeSH`. |
| Kegg.Lookup | graphql-server/internal/dal/kegg/diseases_fetcher.go:90-92 | A key that is missing, or read from a nil map, gives a nil slice. A present key gives its values. |
| Kegg.FailureSticks | graphql-server/internal/dal/kegg/diseases_fetcher.go:49-81 | Once a line has panicked, the whole reading has failed with that panic. |
| Kegg.ScanReadsPrefix | graphql-server/internal/dal/kegg/diseases_fetcher.go:49-81 | The state after `n` lines depends on those lines only. |
| Kegg.KeywordsExclusive | graphql-server/internal/dal/kegg/diseases_fetcher.go:51-79 | The keywords tested in turn exclude each other, and an indented line starts with none of them. |
| Kegg.EntrySetsId | graphql-server/internal/dal/kegg/diseases_fetcher.go:51-52 | The id is the first field after `ENTRY`. An ENTRY line with no field makes the reading fail. |
| Kegg.CategoryIsTrimmedRest | graphql-server/internal/dal/kegg/diseases_fetcher.go:76-77 | The category is the rest of the line after `CATEGORY`, trimmed. |
| Kegg.DescriptionIsTrimmedRest | graphql-server/internal/dal/kegg/diseases_fetcher.go:78-79 | The description is the rest of the line after `DESCRIPTION `, trimmed. |
| Kegg.UnspacedDescriptionKeepsKeyword | graphql-server/internal/dal/kegg/diseases_fetcher.go:78-79 | When no space follows `DESCRIPTION`, the keyword stays in the description. |
| Kegg.ContinuationName | graphql-server/internal/dal/kegg/diseases_fetcher.go:62 | A continuation line's name is its trimmed text, without one trailing `;`. |
| Kegg.NameBlockEnds | graphql-server/internal/dal/kegg/diseases_fetcher.go:56-60 | A NAME block ends at the first unindented or ` SUBGROUP` line, which is consumed without effect. |
| Kegg.NameBlockReads | graphql-server/internal/dal/kegg/diseases_fetcher.go:53-64 | A NAME block adds the cleaned NAME line and then each continuation line's cleaned text, in order. |
| Kegg.DescriptionAfterNamesIsLost | graphql-server/internal/dal/kegg/diseases_fetcher.go:56-60 | A DESCRIPTION line directly after the names ends them and is not read as a description. |
| Kegg.LinksBlockEnds | graphql-server/internal/dal/kegg/diseases_fetcher.go:67-71 | A DBLINKS block ends at the first unindented line, which is consumed without effect. |
| Kegg.LinksBlockReads | graphql-server/internal/dal/kegg/diseases_fetcher.go:65-75 | A DBLINKS block starts a fresh map, which its link lines fill in order. |
| Kegg.LinkLineWithoutColon | graphql-server/internal/dal/kegg/diseases_fetcher.go:73-74 | An indented line without `:` inside DBLINKS panics. |
| Kegg.LinkWithoutColonFails | graphql-server/internal/dal/kegg/diseases_fetcher.go:73-74 | Such a line makes the whole `Fetch` fail, whatever follows. |
| Kegg.LinkOfNeedsColon | graphql-server/internal/dal/kegg/diseases_fetcher.go:72-74 | A link line has a key exactly when it holds a `:`. |
| Kegg.LinkOfSplits | graphql-server/internal/dal/kegg/diseases_fetcher.go:72-74 | The key is the trimmed text before the first `:`, and the values are the fields after it. |
| Kegg.LinkMapKeys | graphql-server/internal/dal/kegg/diseases_fetcher.go:74 | The map's keys are exactly the keys written. |
| Kegg.LastLinkWins | graphql-server/internal/dal/kegg/diseases_fetcher.go:74 | A repeated key keeps the values of its last line. |
| Kegg.OtherLinksAreDropped | graphql-server/internal/dal/kegg/diseases_fetcher.go:89-93 | A link under any key but `ICD-10`, `ICD-11` and `MeSH` does not change the disease returned. |
| Kegg.NoLinksGiveNilLists | graphql-server/internal/dal/kegg/diseases_fetcher.go:89-93 | A record without DBLINKS still gets a links object, with three nil lists. |
| PubMed.AssembleAbstract | graphql-server/internal/dal/pubmed/entrez_searcher.go:98-108 | The loop over the sections and the final `TrimSuffix` give the accumulated sections without their final blank line. |
| PubMed.AppendSection | graphql-server/internal/dal/pubmed/entrez_searcher.go:100-105 | One section appends its `Label:` line when it has a label, then its normalized text and a blank line. |
| PubMed.NoSectionsGiveEmptyAbstract | graphql-server/internal/dal/pubmed/entrez_searcher.go:98-108 | No section gives an empty abstract. |
| PubMed.OneBlankLineRemoved | graphql-server/internal/dal/pubmed/entrez_searcher.go:108 | Exactly one blank line is removed, the one after the last section. |
| PubMed.AbstractJoinsBlocks | graphql-server/internal/dal/pubmed/entrez_searcher.go:98-108 | The abstract is the blocks of the sections, each with its heading, in input order, separated by blank lines. |
| PubMed.NormalizeFacts | graphql-server/internal/dal/pubmed/entrez_searcher.go:104 | The normalized text keeps the words of the text, in order. Each of its white-space runes is a single space between two words. |
| PubMed.NormalizeIsIdempotent | graphql-server/internal/dal/pubmed/entrez_searcher.go:104 | Normalizing a normalized text changes nothing. |
| GoStrings.FieldsOfJoin | graphql-server/internal/dal/pubmed/entrez_searcher.go:104 | `strings.Fields` of words joined by spaces gives the words back. |
| GoStrings.FieldsOfTrimSpace | graphql-server/internal/dal/pubmed/entrez_searcher.go:104 | Trimming does not change the fields of a text. |
| GoStrings.FieldsAreWords | graphql-server/internal/dal/kegg/diseases_fetcher.go:34 | Every field is a non-empty run without white space. |
| GoStrings.TrimSpaceFacts | graphql-server/internal/dal/kegg/diseases_fetcher.go:72 | `TrimSpace` keeps a contiguous piece of the text that starts and ends with a non-space rune. Only white space lies outside it. |
| GoStrings.CutFacts | graphql-server/internal/dal/kegg/diseases_fetcher.go:73 | `SplitN(s, ":", 2)` gives two parts exactly when `:` occurs, splitting at its first occurrence. |
| GoStrings.TrimPrefixFacts | graphql-server/internal/dal/kegg/diseases_fetcher.go:52 | `TrimPrefix` drops the prefix once if the text starts with it, and otherwise changes nothing. |
| GoStrings.TrimSuffixFacts | graphql-server/internal/dal/pubmed/entrez_searcher.go:108 | `TrimSuffix` drops the suffix once if the text ends with it, and otherwise changes nothing. |
| GoStrings.ByteLen | graphql-server/internal/dal/dal.go:490 | `len` of a string counts its UTF-8 bytes: at least one and at most four per rune. |
| Dal.DiseaseToGql | graphql-server/internal/dal/dal.go:616-633 | Every field is copied. The links object exists exactly when it does in the stored disease. |
| Dal.DiseaseToDB | graphql-server/internal/dal/dal.go:635-652 | Every field is copied back. The links object exists exactly when it does in the API disease. |
| Dal.DiseaseRoundTrip | graphql-server/internal/dal/dal.go:616-652 | A stored disease sent to the API and back is unchanged. |
| Dal.GqlDiseaseRoundTrip | graphql-server/internal/dal/dal.go:616-652 | An API disease stored and read back is unchanged. |
| Dal.Proposals | graphql-server/internal/dal/dal.go:415-421 | Each QA proposes one positive item keyed by its article's id, in order. |
| Dal.AsSlice | graphql-server/internal/dal/dal.go:413-424 | The result slice holds the emitted items, and stays nil until the first append. |
| Dal.GetClassificationItems | graphql-server/internal/dal/dal.go:412-437 | The two loops return the merge of the QAs' items and then of the stored items. |
| Dal.MergeStored | graphql-server/internal/dal/dal.go:429-437 | The second loop goes on from the ids and items the first left. |
| Dal.MergeItem | graphql-server/internal/dal/dal.go:416-426 | An item whose article id is new is converted and appended, and its id recorded. Any other item is skipped. |
| Dal.MergeFailsOnNilArticle | graphql-server/internal/dal/dal.go:416-430 | The merge panics exactly when some candidate has a nil article. |
| Dal.SpecIsOneMerge | graphql-server/internal/dal/dal.go:412-435 | The two loops together are one merge over the QAs' items followed by the stored items. |
| Dal.MergeSeen | graphql-server/internal/dal/dal.go:412-435 | The ids seen are those of the emitted items, no two of which share an article. Every candidate's article id has been seen. Nothing is emitted only when there was no candidate. |
| Dal.MergeKeepsFirstOfEachArticle | graphql-server/internal/dal/dal.go:412-435 | The merge emits, in candidate order, the conversion of the first candidate of each article id. |
| Dal.ClassificationItemsFailure | graphql-server/internal/dal/dal.go:415-435 | `GetClassificationItems` panics exactly when some QA or stored item has a nil article. |
| Dal.ClassificationItemsCoverQAs | graphql-server/internal/dal/dal.go:412-437 | On success: no two items share an article, and every QA's article is among them. The slice is nil exactly when there are no QAs and no stored items. |
| Dal.ClassificationItemsPutQAsFirst | graphql-server/internal/dal/dal.go:415-427 | On success, an item with a QA's article is positive and keyed by the article id. All such items come before the others. |
| Dal.GetStatistics | graphql-server/internal/dal/dal.go:456-521 | The counts are passed through, and the items are counted by label. The positive total adds the QA count. The shortest and longest answer lengths bound every answer's byte length and are among those lengths, unless still at their starting values. |
| Dal.CountLabels | graphql-server/internal/dal/dal.go:456-466 | The loop counts the items labelled positive and negative. |
| Dal.ScanQuestions | graphql-server/internal/dal/dal.go:488-504 | The loop over one QA's questions extends the length extremes over their answers. |
| Dal.ScanAnswers | graphql-server/internal/dal/dal.go:489-503 | Each answer's byte length lowers the shortest or raises the longest. |
| Dal.AnswerLengths | graphql-server/internal/dal/dal.go:490 | Each answer's length is the UTF-8 byte length of its text. |
| Dal.CountsSplitItems | graphql-server/internal/dal/dal.go:459-466 | No item is counted twice, and every item is counted exactly when all labels are 0 or 1. |
| Dal.NoAnswersGiveDefaults | graphql-server/internal/dal/dal.go:479-480 | With no answer the lengths stay `math.MaxInt32` and 0. |
| Dal.ExtremesAreMinAndMax | graphql-server/internal/dal/dal.go:479-505 | With at least one answer, all shorter than `math.MaxInt32`, the two are the least and the greatest length. |
| Dal.CopyAnswers | graphql-server/internal/dal/dal.go:274-280 | The answers are copied one for one, in order, into a non-nil slice. |
| Dal.UpdateQA | graphql-server/internal/dal/dal.go:263-283 | With no patch the QA is returned as it is. Otherwise its questions are rebuilt from the patch in order, each with a fresh id and its answers copied. The id, disease and article stay. |
| Utils.Deref | graphql-server/internal/utils/utils.go:9-16 | A nil pointer gives the zero value, and any other pointer its pointee. |
| Utils.Ptr | graphql-server/internal/utils/utils.go:48-50 | `Ptr` gives a non-nil pointer. |
| Utils.DerefPtr | graphql-server/internal/utils/utils.go:48-50 | Dereferencing `Ptr(i)` gives `i` back. |
| Utils.Append | graphql-server/internal/utils/utils.go:28 | `append` gives a non-nil slice holding the old elements and the new one. |
| Utils.DerefSlice | graphql-server/internal/utils/utils.go:19-32 | Every element is dereferenced in order, nil ones to the zero value. The result is nil exactly when the input has no elements. |
| Utils.MapDeref | graphql-server/internal/utils/utils.go:34-45 | A nil map gives nil. Otherwise the result has the same keys, each value dereferenced. |
| Utils.Contains | graphql-server/internal/utils/utils.go:68-75 | `Contains` is true exactly when some element equals the value. |
| Utils.Map | graphql-server/internal/utils/utils.go:78-88 | A nil slice gives nil. Otherwise the result has the same length and holds `f` of each element, in order. |
| UiFunctions.SplitJoins | management-ui/src/utils/functions.ts:3 | No piece of `split(" ")` holds a space, and joining the pieces with spaces gives the text back. |
| UiFunctions.JoinSplits | management-ui/src/utils/functions.ts:7 | Splitting space-free pieces joined by spaces gives the pieces back. |
| UiFunctions.ShortTextIsKept | management-ui/src/utils/functions.ts:4-6 | A text of at most `words` pieces is returned unchanged. |
| UiFunctions.TruncateWords | management-ui/src/utils/functions.ts:3-8 | A text of at most `words` space-separated pieces is returned unchanged, and a longer one ends in `...`. `ShortTextIsKept` and `LongTextIsCut` characterize it fully: a longer text becomes its first `words` pieces followed by `...`, or just `...` when `words <= 0`. |
| UiFunctions.LongTextIsCut | management-ui/src/utils/functions.ts:7 | A longer text becomes a prefix followed by `...`. With `words >= 1` the prefix stops at the space after the `words`-th piece and splits into the first `words` pieces. With `words <= 0` it is empty. |
| UiFunctions.Clamp | management-ui/src/utils/functions.ts:10-12 | When `min <= max` the result lies in the range, and equals `value` exactly when `value` does. Below the range it is `min`. Above the range, or when `min > max`, it is `max`. |
| UiFunctions.ClampIsIdempotent | management-ui/src/utils/functions.ts:10-12 | Clamping a clamped value changes nothing. |
| UiFunctions.ClampIsMonotonic | management-ui/src/utils/functions.ts:10-12 | Clamping keeps the order of values. |

## Behaviour worth knowing

- **The containment example.** One might expect "severe obesity" (9.0) to replace
  "obesity" (10.0). The code sorts "obesity" first. When "severe obesity" comes next, the
  accepted "obesity" does not contain it, and it does not outscore "obesity". So both are kept
  (`Consolidation.ObesityExample`).
- **The deleting branch.** The `elif` branch of the containment loop (lines 518-520), which
  deletes an accepted answer, can never be taken. The loop runs in non-increasing score order,
  so no new answer outscores an accepted one. `Consolidation.ResolveContainment` proves the
  branch dead. `Consolidation.ResolvePrefix` proves that accepted answers stay.
- **The line that ends a KEGG block.** The NAME and DBLINKS inner loops read that line
  themselves, and it never reaches the outer dispatch. A DESCRIPTION, CATEGORY or DBLINKS line
  directly after the names is therefore lost (`Kegg.DescriptionAfterNamesIsLost`,
  `Kegg.NameBlockEnds`, `Kegg.LinksBlockEnds`).
- **The DESCRIPTION keyword.** The code trims the prefix `DESCRIPTION ` with its space. A
  `DESCRIPTION` line without that space keeps the keyword in the description
  (`Kegg.UnspacedDescriptionKeepsKeyword`).

## Left out

- Neural inference, the tokenizer and `np.argsort` are outside the model. The start and end logits, the token offsets, the sequence ids and the `n_best` index lists are inputs. The properties hold for any index lists within range.
- `np.percentile` for `max_answer_length` and its JSON file are not modelled; `max_answer_length` is a parameter.
- Scores are exact reals; no floating-point rounding is modelled.
- The feature-to-article grouping (`example_to_features`) is an input: each article comes with its own features.
- The `tenacity` retry around the article fetch, and the skipping of articles whose fetch fails, are not modelled: the articles that were fetched are the input.
- The HuggingFace dataset, trainer, metric computation and model saving of `train_async` and `_compute_metrics` are not modelled; only the flattening, label search, masking, span search and best answer are.
- PyStr.Lower: lower-cases ASCII letters only, because Unicode case mapping is not available.
- Go's `bufio.Scanner` is replaced by the lines it yields. `scanner.Err()` and the HTTP requests are not modelled.
- PubMed's HTTP request and the XML unmarshalling are not modelled. The `AbstractText` sections are the input.
- Mongo queries, cursors and their decode errors, the Redis cache, and the `auth` permission checks in `dal.go` are not modelled. What the queries return is given as sequences, and `CountDocuments` results are parameters.
- Dal.UpdateQA: `uuid.NewString()` is the parameter `newId`, which states only which call gave which question its id, not that ids are unique. The `ReplaceOne` write and `convertQAToGql` are not modelled.
- Dal.GetStatistics: the log line for an answer of length 217 is not modelled, because it only writes to the log.
- Dal.GetClassificationItems: a nil element pointer in the QA or item lists is not modelled. A nil `Article` field is, and it panics.
- GoStrings.ByteLen: a `char` is taken as one Unicode scalar value. Invalid UTF-8 in Go strings is not modelled.
- Go's unspecified map iteration order in `MapDeref` is not modelled; the resulting map is the same for every order.
- `NewError`, `WrapError` and `WrapErrorf` in `utils.go` are not modelled, because they only format errors.
- UiFunctions.TruncateWords: JavaScript numbers are taken as integers. A fractional `words` (which `splice` truncates) and `NaN` are not modelled.
- UiFunctions.Clamp: JavaScript numbers are taken as integers; `NaN` and infinities are not modelled.
