# CDP support chatbot — a Dafny model of its deterministic core

`ass2.py` is a small console chatbot for four Customer Data Platforms:
Segment, mParticle, Lytics and Zeotap. The class `CDPChatbot` decides
whether a question is about CDPs (`is_cdp_question`) and which platform it
names (`identify_cdp`). For a single platform it retrieves the three most
relevant documentation fragments (`find_most_relevant_docs`) and formats
them as a numbered list (`generate_response`). A question asking to compare
platforms gets one labelled section per mentioned platform
(`handle_comparison_question`). `main` reads lines until `quit` and sends
each line to one of the two paths.

The model is split into these modules:

- `Wrappers` (wrappers.dfy): the `Option` type standing for Python's
  `None`-or-value result of `identify_cdp`.
- `Text` (text.dfy): the string operations the program relies on.
  - ASCII `str.lower` and `str.capitalize`.
  - Python's substring test `needle in text`, proved against a ghost
    "occurs at some position" definition.
  - The decimal rendering of list numbers in f-strings.
  - `Join`, a string built by appending pieces one at a time, which is the
    shape of `response += ...` in a loop.
- `Seqs` (seqs.dfy): subsequences and distinctness, used to state list order.
- `Classifier` (classifier.dfy): `is_cdp_question`, `identify_cdp` and the
  `cdps_mentioned` filter.
- `Ranking` (ranking.dfy): the index selection
  `np.argsort(similarities)[-3:][::-1]` and the look-up of the chosen fragments.
- `Responses` (responses.dfy): `generate_response` and
  `handle_comparison_question`.
  - Each is a method that appends to a string in a `for` loop, as the
    source does.
  - Each is proved equal to a specification function (`Answer`,
    `Comparison`). Lemmas state the properties of those functions.
- `Chat` (chat.dfy): the routing decision of `main` and its `while True`
  loop over a sequence of input lines.

Retrieval is a parameter `retrieve: (question, platform) -> seq<Fragment>`,
with no assumption about it. A `Fragment` carries only its `content` string,
the one field the formatting code reads. `Ranking.MostRelevantDocs` states
what the source's retriever returns for given similarity scores.

## Model

| member | source | states |
|---|---|---|
| Text.Contains | ass2.py:72 | `needle in text` is true exactly when `needle` sits at some position of `text` |
| Text.Lower | ass2.py:72 | `str.lower` keeps the length, leaves no upper-case letter, keeps every other character, and turns each upper-case letter into its lower-case counterpart |
| Text.CapitalizeLower | ass2.py:130 | `str.capitalize` keeps the length and changes only letter case; the first character comes out not lower-case (a lower-case first letter is upper-cased) and every later character comes out not upper-case |
| Text.NatToString | ass2.py:114 | `f"{i}"` is a non-empty string of decimal digits, with a leading `0` only for zero |
| Text.ParseNatToString | ass2.py:114 | reading the rendered digits back gives the number again |
| Text.NatToStringInjective | ass2.py:113-114 | distinct list numbers render to distinct strings |
| Text.JoinPrefix | ass2.py:112-114 | a string built by appending pieces still begins with the text it started from |
| Text.JoinHasPiece | ass2.py:113-114 | every appended piece occurs in the string that is built |
| Classifier.IsCdpQuestion | ass2.py:76-81 | true exactly when some keyword of the fixed list is a substring of the lower-cased question |
| Classifier.FirstMatch | ass2.py:71-74 | the first name of the list, in list order, that occurs in the text, and None exactly when none occurs |
| Classifier.IdentifyCdp | ass2.py:68-74 | the first of segment, mparticle, lytics, zeotap (in that order) that occurs in the lower-cased question, with every earlier platform absent; None exactly when no platform occurs |
| Classifier.ListOrderWins | ass2.py:70-73 | a question naming zeotap before segment is about segment: list order wins, not order in the question |
| Classifier.PlatformsAreKeywords | ass2.py:78-80 | every platform name is also an in-domain keyword |
| Classifier.IdentifiedIsCdpQuestion | ass2.py:68-81 | whenever `identify_cdp` returns a platform, `is_cdp_question` is true |
| Classifier.Filter | ass2.py:120-121 | the names that occur in the text, and only those, kept in list order |
| Classifier.Mentioned | ass2.py:120-121 | `cdps_mentioned` holds exactly the platforms whose names occur in the lower-cased question, as a subsequence of the key order |
| Classifier.MentionedIsDetermined | ass2.py:120-121 | any list of exactly the mentioned platforms in key order is `cdps_mentioned` itself |
| Classifier.FirstMatchIsFirstFiltered | ass2.py:71-74 | the first match is the head of the filtered list, and there is none exactly when that list is empty |
| Classifier.IdentifyIsFirstMentioned | ass2.py:68-74 | `identify_cdp` names the first entry of `cdps_mentioned`, and returns None exactly when that list is empty |
| Ranking.Insert | ass2.py:90 | inserting an index into an ascending index order keeps it ascending and distinct, and adds exactly that index |
| Ranking.SortIndices | ass2.py:90 | the indices below m, each exactly once, in ascending score order |
| Ranking.ArgSort | ass2.py:90 | `np.argsort`: a permutation of all indices in ascending score order |
| Ranking.TopThree | ass2.py:90 | `argsort(...)[-3:][::-1]` picks min(3, n) distinct in-range indices in non-increasing score order, and no index left out scores strictly higher than a picked one (empty for n = 0) |
| Ranking.TopThreeCorrect | ass2.py:90 | the reversed last three of a complete ascending index order form such a top selection |
| Ranking.TopSelectionHeadIsMaximum | ass2.py:90 | the first fragment returned has the highest score of all |
| Ranking.MostRelevantDocs | ass2.py:88-92 | min(3, n) fragments, those at the indices of a top selection, most relevant first |
| Responses.GenerateResponse | ass2.py:94-116 | the appending loop builds exactly `Answer`: refusal, platform prompt, not-found message, or the header followed by one numbered line per fragment |
| Responses.ReplyShapesDistinct | ass2.py:98-112 | the four possible reply shapes (refusal, platform prompt, not-found message, listing) are pairwise different |
| Responses.AnswerRefusesExactlyOffTopic | ass2.py:97-98 | the CDP-only refusal comes back exactly when `is_cdp_question` is false |
| Responses.AnswerAsksForPlatformExactly | ass2.py:97-103 | the "Please specify which CDP" prompt comes back exactly for CDP questions that name no platform |
| Responses.AnswerNotFoundExactlyWhenNothingRetrieved | ass2.py:106-109 | for an identified platform, the "couldn't find" message comes back exactly when nothing is retrieved |
| Responses.ListingHoldsFragment | ass2.py:112-114 | the listing holds each fragment's line `"{i}. {content}\n"` with i counting from 1, and so its content |
| Responses.AnswerListsEveryFragment | ass2.py:106-116 | every retrieved fragment appears in the answer under its number |
| Responses.HandleComparison | ass2.py:118-135 | the nested appending loops build exactly `Comparison`: the prompt below two platforms, else the header and one section per mentioned platform in key order |
| Responses.AppendSection | ass2.py:130-133 | appending the label, the bullets and a blank line appends exactly one section |
| Responses.ComparisonPromptsExactlyBelowTwo | ass2.py:120-124 | the "please mention the specific CDPs" prompt comes back exactly when fewer than two platforms are mentioned |
| Responses.SectionHoldsLabel | ass2.py:130 | a section holds its label `"{Cdp}:\n"` |
| Responses.SectionHoldsFragment | ass2.py:131-132 | a section holds the content of each of its fragments |
| Responses.ComparisonHoldsSection | ass2.py:127-135 | with two or more platforms mentioned, every mentioned platform's section is in the comparison |
| Responses.ComparisonLabelsEveryPlatform | ass2.py:128-130 | every mentioned platform's label is in the comparison |
| Responses.ComparisonListsEveryFragment | ass2.py:128-132 | every fragment retrieved for every mentioned platform is in the comparison |
| Chat.RouteOf | ass2.py:145-151 | a line quits exactly when it lower-cases to "quit"; otherwise it goes to comparison mode exactly when its lower-cased form contains "compare" or "difference" |
| Chat.TranscriptRepliesInOrder | ass2.py:142-153 | the loop prints one reply per line, in order; it replies to no "quit" line and stops early only at one |
| Chat.SessionRepliesInOrder | ass2.py:142-153 | each printed reply is the reply of the chatbot to the input line at the same position, up to the first "quit" |
| Chat.Run | ass2.py:142-153 | the `while True` loop with its `break` prints exactly the session's replies |
| Chat.Respond | ass2.py:148-151 | the loop body sends a non-quit line to `handle_comparison_question` or `generate_response` as routed |
| Chat.NoKeywordInCompare | ass2.py:78-80 | the line "compare" holds none of the in-domain keywords |
| Chat.CompareSkipsDomainCheck | ass2.py:97-149 | the line "compare" goes to comparison mode and gets the comparison prompt, although `generate_response` would refuse it as off-topic: comparison mode makes no domain check |

## Left out

- `preprocess_text`, the NLTK downloads, the stopword list and the lemmatizer
  (ass2.py:17-22, 54-59): foreign-library behaviour and network I/O.
- TF-IDF indexing and cosine similarity (ass2.py:33-35, 61-66, 85-89): these
  are scikit-learn floating-point computations. Scores are an arbitrary
  sequence of reals, one per fragment. This also leaves out that one shared
  vectorizer is refit for each platform, so only the last platform's
  vocabulary is used to transform later questions.
  The retriever is total, so the model does not capture the errors the
  library raises: fitting the vectorizer on an empty fragment list
  (ass2.py:66) fails with an empty vocabulary, and `cosine_similarity`
  (ass2.py:88) fails when a platform's vectors were built with a vocabulary
  of a different size from the one fitted last.
- `fetch_documentation` (ass2.py:37-52): a stub that always returns `[]`.
  The fragment lists are whatever the retriever parameter returns.
- `MostRelevantDocs` is not wired into `Answer` and `Comparison`: those take
  the retriever as an opaque parameter, so no property of them depends on
  the scores. The state of `CDPChatbot` (`docs`, `vectorizer`,
  `doc_vectors`) is not modelled as an object for the same reason.
- Ranking.TopThree: fixes one order among equal scores (insertion order
  of the index sort), but its contract leaves the order among ties open,
  since `np.argsort` uses an unstable sort.
- Console I/O of `main` (ass2.py:140, 143, 153): the banner and the prompt
  are not modelled. Input lines are a sequence, and each printed reply is an
  element of the returned sequence, without the newline `print("\n" + ...)`
  puts before it and the one `print` puts after it.
  The end of input, where `input` raises `EOFError`, is modelled as the end
  of the session.
- Text.Lower and Text.Capitalize: ASCII letters only. Python's full Unicode
  case mapping (for example characters whose lower-case form is longer) is
  not modelled.
