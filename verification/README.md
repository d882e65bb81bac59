# TalentScoutBot interview engine in Dafny

A model of the interview session and response evaluation engine of TalentScoutBot,
a technical-interview assistant. The backend (`chat_api.py`) handles the following:

- Chat turn: it decides which stored interview a turn belongs to, asks a language
  model for the interviewer's next message, and saves the extended transcript with
  heuristic scores.
- Evaluation: it scores the candidate's answers on four dimensions: technical depth,
  communication, problem solving and experience.
- Comparison: it compares several stored interviews and recommends each candidate
  as strong, good or junior.

The frontend store (`chat-store.js`) keeps the candidate's profile, the transcript
on screen and the "interview started" flag.

The modules follow that structure:

| module | file | models |
|---|---|---|
| `Wrappers` | `wrappers.dfy` | `Option` and `Result` |
| `Interview` | `interview.dfy` | the backend's pydantic records: profile, message, stored interview, request, response |
| `Text` | `text.dfy` | Python's `str.lower()`, `str.split()` and the `in` substring test |
| `Evaluator` | `evaluator.dfy` | `evaluate_responses` |
| `Storage` | `storage.dfy` | the "interviews" document: `save_interview`, `get_interview`, `list_interviews` |
| `Comparator` | `comparator.dfy` | `compare_interviews` and its recommendation rule |
| `Chat` | `chat.dfy` | `format_messages_for_llama`, session-id resolution, and both branches of `chat` |
| `ChatStore` | `chat_store.dfy` | the zustand store `useChatStore` |

The evaluator is given twice:

- `Evaluator.Evaluate` is a closed-form reference. With `n` candidate turns:
  - technical depth is `min(1, T/3n)`, where `T` sums over turns the number of
    vocabulary terms present in each turn;
  - communication is `min(1, W/50n)`, where `W` is the total word count;
  - problem solving and experience are the fractions of turns that mention one of
    their terms.
- `Evaluator.EvaluateResponses` is the backend's loop: one counting pass, then one
  pass per keyword list. It is proved equal to the closed form on every transcript.

The stored document is a Python dict keyed by interview id. Session resolution picks
the first matching record in the dict's iteration order, so the store is a map
paired with its keys in first-insertion order (`Storage.Store`).

The following are function parameters rather than modelled code:

- the language model: a total function from the formatted conversation to
  `Success(reply)` or `Failure(error)`;
- the system prompt template;
- the two clock readings: the `YYYYMMDD_HHMMSS` string that follows the `interview_`
  prefix, and the ISO timestamp.

Facts about the code that the model keeps:

- **Roles.** Messages carry the role strings "user" and "assistant".
  - Evaluation scores exactly the messages whose role is "user".
  - Formatting maps every role other than "assistant" to "user".
- **Saved transcript.** A successful turn saves the request's own message list
  followed by the reply, replacing whatever transcript was stored under that id.
- **Comparison keys.** The comparison is keyed by each found record's own `id`
  field. That is the requested id in a store where every record sits under its
  own id, which is what saving maintains (`Storage.WellKeyed`).
- **"implemented".** A turn mentioning "implemented" counts for experience and,
  because it contains "implement", for problem solving; it is not a technical term.
  `Evaluator.SingleAnswer` states this.
- **Minted ids can collide.** A new profile gets "interview_" followed by the clock
  reading to the second. If another candidate's interview is already stored under
  that id, the turn replaces it (`Chat.MintedIdOverwrites`).

## Model

| member | source | states |
|---|---|---|
| Text.IsSpace | chat_api.py:189 | the characters `split()` separates words on: Python's whitespace set, the ASCII controls 9-13 and 28-31, the space, and the Unicode separators |
| Text.Lower | chat_api.py:188 | lower-casing keeps the length, maps each character to its lower-case form, and leaves no upper-case ASCII letter |
| Text.LowerIdempotent | chat_api.py:188 | lower-casing twice is lower-casing once |
| Text.Contains | chat_api.py:197 | Python's `in` on strings: the term occurs as a contiguous piece of the text |
| Text.ContainsAny | chat_api.py:210-211 | some term of the list occurs in the text; `Text.CountTerms` states it holds exactly when the term count is positive |
| Text.ContainsTransitive | chat_api.py:197 | the `in` test is transitive: a piece of a piece of a text is a piece of that text |
| Text.ImplementedContainsImplement | chat_api.py:208-219 | every answer containing "implemented" also contains "implement" |
| Text.Split | chat_api.py:189 | `split()` with no separator: the maximal whitespace-free runs in order; `Text.SplitIntoWords` and `Text.SplitCountsWordStarts` state the pieces' shape and their number |
| Text.SplitIntoWords | chat_api.py:189 | every piece `split()` returns is a non-empty run free of whitespace, and the pieces written back to back give the text with its whitespace removed |
| Text.SplitCountsWordStarts | chat_api.py:189-190 | the number of pieces `split()` returns equals the count of an independent scan for the places where a word begins |
| Text.CountTerms | chat_api.py:197 | the per-turn term count is at most the vocabulary size and is positive exactly when some term occurs in the turn |
| Text.CountTermsIsDistinctMatches | chat_api.py:194-197 | on a vocabulary without repeats, the per-turn count is the size of the set of vocabulary terms occurring in the turn |
| Evaluator.Min1 | chat_api.py:201 | the result is the smaller of 1 and the argument, so a non-negative argument lands in [0, 1] |
| Evaluator.AsDict | chat_api.py:174-179 | the score dictionary has four entries under four distinct dimension names |
| Evaluator.Lookup | chat_api.py:174-179 | reading a dictionary by key: absent exactly when no entry has that key, otherwise the value of an entry with that key |
| Evaluator.AsDictLookup | chat_api.py:174-179 | the dictionary's keys are exactly "technical_depth", "communication", "problem_solving" and "experience", each holding the matching score |
| Evaluator.SilentTranscriptScoresZero | chat_api.py:174-199 | a transcript with no "user" message is scored as exactly the four keys, each 0.0 |
| Evaluator.UserTurns | chat_api.py:186-188 | the candidate turns are at most as many as the messages, and there are none exactly when no message has role "user" |
| Evaluator.TechTermTotal | chat_api.py:194-197 | the running total of technical terms over the candidate turns; `Evaluator.CountUserTurns` states that the loop computes it |
| Evaluator.WordTotal | chat_api.py:189-190 | the running total of words over the candidate turns; `Evaluator.CountUserTurns` states that the loop computes it |
| Evaluator.TurnsWithAny | chat_api.py:210-211 | the number of turns mentioning a term of the list, never more than the turns; `Evaluator.CountTurnsWithAny` states that the backend's count equals it |
| Evaluator.ScoreTurns | chat_api.py:199-219 | the scores of a list of candidate turns lie in [0, 1] and are all zero for an empty list |
| Evaluator.FromCounts | chat_api.py:199-219 | with at least one turn, all four scores lie in [0, 1] whatever the counts |
| Evaluator.Evaluate | chat_api.py:172-221 | every score lies in [0, 1]; when no message has role "user", all four scores are zero |
| Evaluator.CountUserTurns | chat_api.py:182-197 | the counting loop yields the number of "user" turns, their total word count and their total count of technical terms |
| Evaluator.CountTurnsWithAny | chat_api.py:208-218 | the counting expression yields the number of "user" turns mentioning at least one term of the list |
| Evaluator.EvaluateResponses | chat_api.py:172-221 | the backend's evaluation equals the closed-form reference on every transcript |
| Evaluator.AverageOverFifty | chat_api.py:204-205 | averaging the words per turn and then dividing by 50 is dividing the total by 50 times the number of turns |
| Evaluator.UserTurnsAppend | chat_api.py:186-188 | the scored turns of a concatenated transcript are those of each part, in order |
| Evaluator.NonUserMessageIgnored | chat_api.py:186-187 | inserting or removing a non-"user" message anywhere leaves all four scores unchanged |
| Evaluator.ReplyDoesNotChangeScores | chat_api.py:281-283 | scoring the history before or after the interviewer's reply is appended gives the same scores |
| Evaluator.TechnicalTermsDistinct | chat_api.py:194-196 | the technical vocabulary lists no term twice |
| Evaluator.ImplementedCountsTwice | chat_api.py:208-219 | a turn containing "implemented" counts for both problem solving and experience |
| Evaluator.SingleAnswer | chat_api.py:172-221 | for a one-answer transcript, technical depth is the number of distinct vocabulary terms in it over 3 (capped), communication its word count over 50 (capped), and mentioning "implemented" gives full problem-solving and experience scores |
| Storage.Get | chat_api.py:152-161 | a read finds a record exactly when the id is stored, and then it is the stored record |
| Storage.Put | chat_api.py:139-150 | a save stores the record under its id; every other id reads as before; the key set grows by that id alone; store validity and records-under-their-own-id are preserved |
| Storage.ListInterviews | chat_api.py:163-167 | the listing has one record per stored id, in first-insertion order |
| Storage.EmptyStoreValid | chat_api.py:143 | the empty document, what a missing store reads as, satisfies both store invariants |
| Storage.PutIdempotent | chat_api.py:139-150 | saving the same record twice equals saving it once |
| Storage.ListAfterPut | chat_api.py:139-167 | after a save, the listing has the record replaced at its old position when its id existed, and appended otherwise |
| Comparator.EffectiveScores | chat_api.py:66 | a comparison uses the cached dictionary when present and non-empty, and otherwise a fresh evaluation of the transcript; either way the dictionary is non-empty |
| Comparator.Recommend | chat_api.py:70-76 | the three recommendations partition the means: strong iff mean >= 0.8, good iff 0.6 <= mean < 0.8, junior iff mean < 0.6 |
| Comparator.RecommendMonotone | chat_api.py:70-76 | a higher mean never earns a lower recommendation |
| Comparator.MeanOfEvaluation | chat_api.py:70 | the mean of an evaluation's dictionary is the average of its four scores and lies in [0, 1] |
| Comparator.SilentCandidateIsJunior | chat_api.py:66-76 | an interview with no cached scores, or an empty cached dictionary, and no message with role "user" is recommended for junior positions |
| Comparator.Mean | chat_api.py:70 | the mean of a non-empty dictionary; its value on an evaluation is stated by `Comparator.MeanOfEvaluation` |
| Comparator.RecommendationFor | chat_api.py:70-78 | the recommendation a record receives is the rule applied to the mean of its effective scores; `Comparator.CompareExact` states that it is what the comparison files under the record's id |
| Comparator.FoundInterviews | chat_api.py:61-62 | there are never more found interviews than requested ids; exactly which ones is stated by `Comparator.FoundInterviewsExact` |
| Comparator.Tabulate | chat_api.py:64-78 | the loop over the found interviews; its keys and values are stated by `Comparator.TabulateKeys` and `Comparator.TabulateLastWins` |
| Comparator.Compare | chat_api.py:54-83 | the comparison endpoint's result; what it holds is stated by `Comparator.CompareExact` |
| Comparator.FoundInterviewsExact | chat_api.py:61-62 | the interviews the comparison loops over are exactly the stored records of requested ids; missing ids are skipped |
| Comparator.TabulateKeys | chat_api.py:64-78 | both result dictionaries are keyed by exactly the ids of the found interviews |
| Comparator.TabulateLastWins | chat_api.py:64-78 | under each id, both dictionaries hold what the last found interview with that id yields |
| Comparator.CompareExact | chat_api.py:54-83 | the comparison covers exactly the requested ids that are stored, repeats collapsed; each has its effective scores and the recommendation on their mean |
| Chat.NormaliseRole | chat_api.py:134 | the content is kept; the role is "assistant" exactly when it was, and "user" otherwise |
| Chat.FormatForLlama | chat_api.py:125-137 | the system prompt comes first, then one message per history message with the same content; the role is "assistant" iff it was, else "user" |
| Chat.FormatIdempotent | chat_api.py:125-137 | formatting an already formatted history again changes nothing |
| Chat.FirstWithProfile | chat_api.py:257-261 | the search finds the first listed interview whose profile equals the request's; none is found only when no listed profile equals it |
| Chat.FirstMatchExists | chat_api.py:257-261 | when some stored interview has the request's profile, a first one exists in listing order, so the search does not fall back to a fresh id |
| Chat.ResolveId | chat_api.py:256-267 | with no stored profile equal to the request's, the id is "interview_" followed by the clock; otherwise it is the id of the first listed interview with that profile, a stored interview with that profile |
| Chat.LlmReply | chat_api.py:269-276 | the language model applied to the system prompt and the formatted history; `Chat.ChatTurn` states how its outcome decides the turn |
| Chat.TurnRecord | chat_api.py:278-284 | the record a successful turn saves; `Chat.SavedTranscriptAndScores` states its transcript and scores |
| Chat.ChatTurn | chat_api.py:274-292 | on model failure, the fallback reply without an id and an unchanged store; on success, the reply with the resolved id, the new record stored under that id, every other id unchanged and store validity kept |
| Chat.SavedTranscriptAndScores | chat_api.py:278-284 | the saved transcript is the request's history followed by one message, the reply with role "assistant"; the cached `evaluationScores` is present and holds the evaluation of the request's history, which equals a fresh evaluation of the saved transcript |
| Chat.ResolveAfterSave | chat_api.py:256-285 | once a record is saved under the id its profile resolved to, that profile resolves to the same id whatever the clock reads |
| Chat.ResumeSameInterview | chat_api.py:253-287 | after a successful turn, the next turn with the same profile continues the same interview |
| Chat.MintedIdOverwrites | chat_api.py:264-285 | when no stored profile matches and the minted id is already stored for another candidate, a successful turn adds no key and replaces that candidate's record with the new one |
| ChatStore.Initial | chat-store.js:26-28 | the store starts with no profile, an empty transcript and the interview not started |
| ChatStore.SetCandidateInfo | chat-store.js:29 | sets the profile and leaves the transcript and the started flag as they were |
| ChatStore.AddMessage | chat-store.js:30-32 | the transcript grows by exactly the new message at its end; the other fields are kept |
| ChatStore.StartInterview | chat-store.js:33 | raises the started flag and keeps the other fields |
| ChatStore.Reset | chat-store.js:34-38 | returns to the initial state: no profile, an empty transcript, not started |
| ChatStore.SettersIdempotent | chat-store.js:29-33 | setting the same profile twice, or starting twice, equals doing it once |
| ChatStore.RunFromInitial | chat-store.js:25-38 | from the initial state, after any sequence of actions, the transcript is exactly the messages added since the last reset, and the interview counts as started iff a start happened since then |
| ChatStore.ResetForgetsHistory | chat-store.js:34-38 | whatever happened before, a reset returns the store to its initial state |

## Left out

- FastAPI routing and pydantic validation, including the `/interviews` listing endpoint: they are framework glue around the modelled functions.
- `get_llama_response`: the HTTP call, API key, request parameters and response parsing are I/O. The model takes the language model as a function that succeeds with a reply or fails.
- `create_system_prompt`: the prompt's wording is not behaviour. The model takes the template as a function parameter.
- `datetime.now()`: the clock is not modelled. The id's time suffix and the ISO timestamp are parameters.
- Storage I/O failures:
  - when reading the document fails, `save_interview` overwrites the store with a single-entry document;
  - `get_interview` answers `None` when reading or rebuilding a record fails;
  - `list_interviews` answers an empty list when any record is malformed.

  The model assumes reads succeed and stored records are well formed.
- Exceptions other than the model's failure that the `try` in `chat` also turns into the fallback reply, such as a failing save: they are storage I/O errors, which the model does not represent.
- Concurrent turns: two turns with the same profile may both mint fresh ids. The model treats one turn at a time; the sequential id collision is stated by `Chat.MintedIdOverwrites`.
- Text.Lower: lower-cases ASCII letters only. Python's `str.lower()` also maps other upper-case characters, which could create a term match in a non-ASCII answer. The model does not cover that case.
- Evaluator.Evaluate: scores are exact reals, while the backend uses binary floating point. Its rounding, for example of a mean just under 0.8, is not modelled.
- The cached score dictionary is an ordered list of (dimension, value) pairs. Any non-empty list is used as given, as in the backend, and its keys are not checked.
- The comparison's two result dictionaries are Dafny maps. The order in which the backend inserts their keys, visible in the JSON response, is not modelled; `Comparator.CompareExact` states their contents only.
- The backend declares `Interview` and the comparison request/response classes twice, with identical fields. They are modelled once.
- `Home.js`, the page that drives the store and the HTTP calls, is not part of this model.
- The frontend's TypeScript role type is narrower ('user' or 'assistant'). Its records reuse the backend's datatypes, with the role as a string.
