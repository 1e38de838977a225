# Chat turn of the document assistant, in Dafny

The service answers chat prompts over a set of ingested documents. The handler of
`POST /api/chat` (`chat` in app/main.py) runs one turn:

- It refuses with 503 while the pipeline is not initialised.
- It sends the prompt down one of two paths, by a case-insensitive keyword test.
- The document path:
  - retrieves documents, and gives a fixed answer when none are found;
  - otherwise has a cross-encoder score every (prompt, document) pair;
  - keeps the three best-scored documents as a context that is only logged;
  - asks the conversational chain for an answer with the raw history;
  - repairs that answer with three string rules.
- The general path asks the model directly, with the history rendered into the prompt, and
  falls back to a fixed sentence when the reply is blank.
- Finally it records the turn in the process-wide `chat_history`:
  - two lines are appended;
  - the list is cut to the last ten on success only;
  - an exception becomes an `Error: ...` response.

The model also covers `CustomTextSplitter.split_text` of the text-splitting tutorial, which
cuts a text into paragraphs at `"\n\n"`.

Modules:

- `Common`: `Option` and `Min`.
- `Strings`: the Python `str` operations used:
  - `in`, `replace(t, "")`, `strip` (Python's whitespace set), `lower`, `join`, `split`,
    `split(sep, 1)[-1]`;
  - the helpers `Find` (the leftmost occurrence) and `Count` (the non-overlapping
    occurrences), which define `in`, `split` and `split(sep, 1)`;
  - `Join` says that the first part starts the result and that every part occurs in it;
    `count` has no contract of its own. Both are pinned down further through `Split`,
    `SplitText`, `SplitCount`, `RemoveAllLength` and `RemoveAllSplit`.
- `Routing`: the keyword test.
- `Ranking`: `scores.argsort()[::-1][:3]`. `IsArgsort` states numpy's contract, which leaves
  the order of equal scores open. `Ranked` takes the order as an input, and the selection
  lemma holds for every admissible order. `Argsort` shows that such an order always exists.
- `Answers`: the three repairs of the chain's answer, and the general-path fallback.
- `History`: the capped and uncapped history updates and the history rendering.
- `TextSplitting`: the paragraph splitter.
- `ChatService`: one turn. The collaborators are inputs: a `Backend` value gives what each
  one returns, or the message of the exception it raises, on this turn, and the order
  `argsort` returns. `WellFormed` states what the collaborators guarantee: one score per
  retrieved document, and an order that `IsArgsort` admits. The pure functions
  `FromDocuments`, `Directly` and `TurnAttempt` describe what the `try` block produces: the
  answer or the exception, the list of external calls made with their arguments, and the
  logged context. The methods `AnswerFromDocuments`, `RepairAnswer` and `AnswerDirectly`
  run the paths step by step, as the handler does, and are proved equal to those
  functions. The class `ChatSession` owns the history. Its `Chat` method ties the reply,
  the calls and the new history to `TurnAttempt` and the old history.

## Model

| member | source | states |
|---|---|---|
| Routing.AnyKeywordInSpec | app/main.py:179 | the `any(...)` scan is true exactly when some keyword, lower-cased, occurs in the text |
| Routing.IsDocRelated | app/main.py:179 | a prompt is document-related exactly when one of BOI, report, information, procedure, file, lower-cased, is a substring of the lower-cased prompt |
| Routing.RoutingIgnoresCase | app/main.py:179 | two prompts equal up to letter case are routed the same way |
| Routing.RoutingOfLowered | app/main.py:179 | lower-casing the prompt first does not change its route |
| Routing.MentionOfBoiIsDocRelated | app/main.py:55 | any prompt containing "boi" in any case takes the document path |
| ChatService.RoutedByKeywords | app/main.py:179-183 | the turn's first call is the retrieval exactly when a keyword occurs in the prompt, and is the direct model call exactly when none does |
| ChatService.TurnAttempt | app/main.py:178-209 | the `try` block makes one to three external calls, and a context is computed only on the document path, after retrieving the prompt |
| ChatService.FromDocuments | app/main.py:182-199 | the document path always starts with retrieval of the prompt and makes at most three external calls |
| ChatService.NothingRetrievedSkipsScorerAndChain | app/main.py:183-186 | an empty retrieval gives exactly "I don't have enough information to answer this.": no scoring, no chain call, no context |
| ChatService.Pairs | app/main.py:188 | one (prompt, document) pair per retrieved document, in retrieval order |
| ChatService.EveryDocumentScored | app/main.py:188-189 | a non-empty retrieval is scored with one (prompt, document) pair per retrieved document, in order |
| Ranking.IsArgsort | app/main.py:190 | numpy's promise for `argsort`: a permutation of the indices in ascending score order, ties in any order; its last index then holds a highest score |
| Ranking.ArgsortPrefixSorted | app/main.py:190 | inserting indices 0..m-1 one by one gives each index once, in ascending score order |
| Ranking.Argsort | app/main.py:190 | every score sequence has an order that numpy's `argsort` may return: a permutation of the indices in ascending score order |
| Ranking.TopIndices | app/main.py:190 | `[::-1][:k]` takes min(k, n) entries of the order, each one of its indices, none twice when the order has none twice |
| Ranking.TopIndicesOrdered | app/main.py:190 | `[::-1][:k]` of any admissible argsort gives min(k, n) distinct indices in non-increasing score order |
| Ranking.TopIndicesUnbeaten | app/main.py:190 | no index left out of that selection scores higher than a selected one |
| Ranking.TopIndicesAreTop | app/main.py:190 | for every admissible argsort, whatever its order among ties, the reversed prefix is a correct top-k selection |
| Ranking.Pick | app/main.py:190 | `[retrieved_docs[i] for i in sel]`: one document per selected index, in the selection's order |
| Ranking.Ranked | app/main.py:190 | for any order numpy's `argsort` may return, `ranked_docs` has min(k, n) documents, taken at distinct indices of a correct top-k selection, best first |
| ChatService.ContextIsTopThree | app/main.py:188-191 | a context exists only after a non-empty retrieval was scored, and it joins with spaces the documents of a correct top-3 selection |
| ChatService.ChainSeesHistoryNotContext | app/main.py:191-193 | every chain call carries the prompt and the newline-joined history, never the reranked context |
| ChatService.FromDocumentsRaises | app/main.py:182-199 | the document path raises exactly when the retriever does, or the scorer or chain does after a non-empty retrieval, and then with the message of the first collaborator reached that raised: retriever, then scorer, then chain |
| ChatService.FromDocumentsAnswer | app/main.py:185-199 | a document-path answer is the fixed sentence for an empty retrieval, otherwise the chain's answer repaired, and never longer than the chain's answer |
| ChatService.AnswerFromDocuments | app/main.py:182-199 | running the document path step by step makes exactly the calls, context and outcome that `FromDocuments` describes |
| ChatService.RepairAnswer | app/main.py:194-199 | reassigning the response through the three guarded repairs gives the composed repair of the answer |
| Answers.StripEcho | app/main.py:194-195 | without an echoed prompt the answer is unchanged; with one, the result is the text between the echoes, concatenated, with its outer whitespace cut off, and shorter than the answer by at least the prompt's length times its non-overlapping count; an empty prompt only strips the answer |
| Answers.DropHistoryPreamble | app/main.py:196-197 | the result is a substring of the answer; without the preamble the answer is unchanged; with it, the result is the text after the first blank line with its outer whitespace cut off |
| Answers.CutDisclaimer | app/main.py:198-199 | the result is a substring of the answer; without the disclaimer the answer is unchanged; with it, "Please note" occurs, and the result is the text before its first occurrence with its outer whitespace cut off, holding no "Please note" |
| Answers.PostProcess | app/main.py:194-199 | the three repairs in order; the second and third only keep a substring of what the first leaves |
| Answers.PostProcessNeverLonger | app/main.py:194-199 | the three repairs never lengthen the answer |
| Answers.PostProcessUnchanged | app/main.py:194-199 | an answer with no echo and neither marker passes through unchanged |
| Answers.PostProcessDropsDisclaimer | app/main.py:198-199 | when the disclaimer reaches the third repair, the final answer contains no "Please note" |
| Answers.PostProcessNotIdempotent | app/main.py:194-195 | repairing twice can differ from repairing once: deleting "ab" from "aabb" leaves a new "ab" |
| Answers.NoInformationAnswerStripped | app/main.py:186 | the fixed answer for an empty retrieval is unchanged by the final strip |
| History.RenderHistory | app/main.py:202 | the empty history renders as "No previous conversation." |
| History.RenderHistoryLines | app/main.py:202 | a non-empty history whose lines hold no newline is recovered by splitting its rendering at newlines |
| ChatService.GeneralPrompt | app/main.py:203-206 | the template holds both the history text and the question |
| ChatService.GeneralPromptCarries | app/main.py:202-207 | the prompt sent to the model contains both the question and the rendered history |
| Answers.GeneralReply | app/main.py:207-209 | the general answer is never empty and has no outer whitespace; it is the stripped reply unless that is empty, and then "I'm here and doing fine, thanks for asking!" |
| ChatService.Directly | app/main.py:200-209 | the general path makes exactly one call, to the model, and computes no context |
| ChatService.DirectlyAnswer | app/main.py:207-209 | a general-path answer is non-empty and stripped; it is the model's stripped reply when that is not blank |
| ChatService.DirectlyRaises | app/main.py:207 | the general path raises exactly when the model call raises, and then with that call's message (the text the handler turns into "Error: ..." at line 224) |
| ChatService.AnswerDirectly | app/main.py:200-209 | running the general path step by step makes the call and gives the outcome that `Directly` describes |
| History.KeepLast | app/main.py:215-216 | `h[-n:]` when longer than n, otherwise h: the last min(n, len(h)) lines of h |
| History.RecordTurn | app/main.py:211-216 | after a successful turn the history is the last min(10, n+2) lines of the old history plus the turn's two lines: at most ten, with only the oldest dropped, and this turn last |
| History.ErrorText | app/main.py:224 | the error text is "Error: " followed by the message |
| History.RecordFailure | app/main.py:223-227 | after a turn that raised, the old history is kept whole and followed by "User: prompt" and "Bot: Error: message" |
| History.FailureExceedsCap | app/main.py:226-227 | the error path does not cut the history, so a full history grows past ten lines |
| History.KeepLastCompose | app/main.py:215-216 | cutting to the last n, appending and cutting again equals a single cut of everything |
| History.ReplayKeepsMostRecent | app/main.py:213-216 | after any non-empty series of successful turns the history is exactly the last ten lines ever recorded, in order |
| ChatService.SucceededWithinCap | app/main.py:211-221 | a successful turn answers with the recorded response and the new history, which has at most ten lines, this turn's last |
| ChatService.ChatSession.constructor | app/main.py:50 | the history starts empty |
| ChatService.ChatSession.Record | app/main.py:211-231 | a response is stripped and recorded with the cap; an exception's message is recorded as "Error: ..." without the cap; the reply carries the new history |
| ChatService.ChatSession.Chat | app/main.py:170-231 | an uninitialised pipeline gives 503 "RAG-Pipeline nicht initialisiert." with no call and no change; otherwise the turn makes the calls of `TurnAttempt` and records its outcome as success or failure |
| Strings.Contains | app/main.py:194 | `t in s` holds exactly when `t` is a substring of `s` |
| Strings.RemoveAll | app/main.py:195 | `replace(t, "")` never lengthens the text and leaves it unchanged when `t` does not occur |
| Strings.RemoveAllLength | app/main.py:195 | `replace(t, "")` shortens the text by len(t)·count(t) |
| Strings.RemoveAllSplit | app/main.py:195 | `s.replace(t, "")` equals `"".join(s.split(t))`: exactly the text between the non-overlapping occurrences of `t` is kept, in order |
| Strings.Lower | app/main.py:179 | `lower()` keeps the length and lower-cases each character on its own (ASCII letters only) |
| Strings.Join | app/main.py:191-193 | `sep.join(parts)` starts with the first part and contains every part |
| Strings.Strip | app/main.py:195 | `strip()` gives a slice of the input with no whitespace at either end and only whitespace around it |
| Strings.StripIdempotent | app/main.py:211 | stripping twice is stripping once |
| Strings.AfterFirst | app/main.py:197 | `split(sep, 1)[-1]` is the text after the first separator, or the whole text |
| TextSplitting.SplitText | app/Tutorial/Rag/RAG-Textsplitting-deep-dive.py:140-142 | the paragraphs joined with "\n\n" give back the text; there is at least one; none contains "\n\n"; each cut is at the leftmost "\n\n" after the previous one; there is one more than the non-overlapping occurrences of "\n\n"; a text without one is a single paragraph |
| TextSplitting.SplitTextEmpty | app/Tutorial/Rag/RAG-Textsplitting-deep-dive.py:142 | the empty text splits into one empty paragraph |
| TextSplitting.SplitTextLeftmost | app/Tutorial/Rag/RAG-Textsplitting-deep-dive.py:142 | three newlines in a row are cut at the first two: "a\n\n\nb" gives "a" and "\nb" |
| Strings.Split | app/Tutorial/Rag/RAG-Textsplitting-deep-dive.py:142 | `s.split(sep)` gives at least one piece; the pieces joined with `sep` give back `s`; none contains `sep`; the first is a prefix of `s`; each piece but the last ends where the leftmost `sep` after it begins |
| Strings.SplitCount | app/Tutorial/Rag/RAG-Textsplitting-deep-dive.py:142 | `split` gives one more piece than `count` finds separators |

## Behaviour a reader might not expect

The model follows the code in these places, where it behaves differently from what one
might assume:

- Ranking ties:
  - A stable descending sort would keep equal scores in retrieval order.
  - The code reverses numpy's default, non-stable `argsort`, so the order among equal scores is unspecified.
  - `Ranking.IsArgsort` admits every such order.
- Empty retrieval:
  - The test for "no information" is on the retrieval result, not on the assembled context.
  - After a non-empty retrieval, the chain is called even when the context is the empty string.
- Use of the context:
  - The reranked context is not passed to the answer prompt: it is only logged.
  - The chain retrieves again by itself (`ChatService.ChainSeesHistoryNotContext`).
- History cap:
  - The cap of ten lines is applied on success only.
  - The error path appends without it (`History.FailureExceedsCap`).
- Post-processing:
  - The clean-up is not idempotent: `Answers.PostProcessNotIdempotent`.

## Left out

- Startup, ingestion and the vector store (PDF loading, Chroma, `/api/update`): these are file and database plumbing. So is the 400 of the update endpoint that comes back as a 500.
- The retriever, the cross-encoder, the chain and the model are foreign calls. What each returns or raises on a turn is an input (`Backend`); their internals are not modelled, including the query expansion of the multi-query retriever.
- Cross-encoder scores are floats; they are modelled as integers, which keeps only their order. The scorer is assumed to return one score per pair, and the order to be one `argsort` may return (`WellFormed`, required by `Chat`). A scorer that returns fewer scores is not modelled.
- Exceptions other than a collaborator raising are not modelled. Examples: a malformed request, or an error inside the string repairs.
- Logging, including the logged context (only its value is returned), is left out.
- Concurrency is left out. The async handlers share `chat_history`; turns are modelled as sequential calls.
- Strings.Lower: lower-cases ASCII letters only, where Python's `str.lower` is full Unicode. Routing is exact for the ASCII keywords. Where it differs from Python is a non-ASCII capital whose lower case holds an ASCII letter, such as 'İ' (U+0130), which Python lower-cases to "i" followed by U+0307: "BOİ" is document-related in Python and not in the model.
- Ranking.Argsort: builds one admissible order (equal scores in index order) only to show that one exists. The turn takes numpy's order as an input, so every admissible order is covered.
- Answers.StripEcho: its result is not a substring of the answer, since deleting every echo joins the text around it. It is stated through `Split` and `Join` instead (`Strings.RemoveAllSplit`).
- The tutorial scripts other than `split_text`, and app/utils.py and app/config.py, are not part of this model: they are top-level calls into LangChain, Chroma and Ollama, with console I/O.
