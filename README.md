# Citation bookkeeping of the EORA question-answering bot

The bot answers questions about a company's past projects with a retrieval-augmented
chain. It retrieves up to three documents for the question and numbers them. The
numbered documents go into the prompt as a context of labelled blocks,
"[Документ n]: …". After the language model answers, the chain looks in the answer for
each document's marker `[n]` and, where one occurs, replaces it by `[<page URL>]`. The
prompt in use (app/core.py:79-97) does not ask for such markers; only the commented-out
earlier prompt (app/core.py:62-78) did. So the rewrite acts on whatever markers the
answer happens to hold. The chain also collects the documents' URLs as the response's
sources and turns any exception into a fixed error text. The bot then appends the
sources to the answer under a "Источники:" heading.

This project models that logic and proves its properties:

- `Text` (text.dfy): the Python string operations the code relies on: `str(n)`, `t in s`,
  `s.replace` and `sep.join`. It also defines `Split`, which the code never calls. It
  serves as the inverse of the bot's join, to read the source lines of a reply back.
- `Results` (results.dfy): an exception outcome (`Returned`/`Raised` with the text of
  `str(e)`) and the text of a `KeyError`.
- `Documents` (documents.dfy): the retrieved document objects and `format_docs`. It is an
  imperative method that writes `metadata["index"]` in place and builds the context
  string.
- `Citations` (citations.dfy): the citation rewrite, as a fold function and as the loop
  over the document objects, and the deduplicated list of sources.
- `CitationExamples` (citation_examples.dfy): worked instances of the rewrite.
- `Service` (service.dfy): the chain and `ask_question_api`'s normalisation and error
  boundary, and a chain that takes the answer's text before rewriting it.
- `Bot` (bot.dfy): the reply text of the bot's message handler.
- `Findings` (findings.dfy): a concrete request on which the program loses its
  citations.

The retriever and the language model are inputs. The retriever gives an outcome holding
a list of documents or an exception. The model is a function from the question and the
context to an answer (a plain string or a chat message object) or an exception.
`Service.AskQuestion` is a total function that maps every outcome of the chain to a
response, so `ask_question_api` never raises.

The program itself expects the answer to be either a string or a message object:
- app/core.py:141-143 takes `.content` when the answer has it.
- app/models.py:6-7 and 15 declare `AIMessage` with a `content` field as a possible
  answer type.

The citation loop at app/core.py:114-118, though, runs before that normalisation. It
uses `in` and `.replace`, which do text work only on a string. The model follows the
code. The consequence is listed under Findings.

## Model

| member | source | states |
|---|---|---|
| Results.KeyErrorMessage | app/core.py:115-117 | the text of a KeyError for a metadata key is the key in single quotes |
| Text.NatToString | app/core.py:103 | the decimal rendering of an index is a nonempty string of digits, one digit exactly for 0..9 |
| Text.NatToStringRoundTrip | app/core.py:103 | reading the rendering of n back as decimal digits gives n |
| Text.NatToStringInjective | app/core.py:115 | distinct indices render differently |
| Text.StartsWith | app/core.py:115 | the test at one offset: starting with t is having t as a prefix |
| Text.ContainsAtOffset | app/core.py:115 | `t in s` holds exactly when t is a prefix of s from some offset 0..len(s) |
| Text.ReplaceAfterPlain | app/core.py:116-117 | text holding no first character of the pattern is copied unchanged and the scan continues after it |
| Text.ReplaceAbsent | app/core.py:116-117 | replacing a pattern that does not occur changes nothing |
| Text.ReplaceBySelf | app/core.py:116-117 | replacing a pattern by itself changes nothing |
| Text.ReplaceFirstOccurrence | app/core.py:116-117 | text before the first occurrence is kept, the occurrence is replaced, and scanning resumes after it without looking at the replacement |
| Text.JoinSnoc | app/core.py:105 | joining one part more appends the separator and the part, and a single part is joined to itself |
| Text.JoinEnds | app/core.py:105 | the joined text starts with the first part and ends with the last |
| Text.JoinContainsParts | app/core.py:105 | every part occurs in the joined text |
| Text.JoinSplit | app/bot.py:36 | the join is onto: every text is the newline join of its split pieces |
| Text.SplitJoin | app/bot.py:36 | the join is invertible: the newline join of parts that hold no newline splits back into exactly those parts |
| Documents.FormatDocs | app/core.py:100-105 | returns the same list and the context of the documents as they were; keeps every content and source; gives each position the number of the last position holding the same object, which is 1..N in order for distinct objects |
| Documents.AnnotateIndices | app/core.py:57 | after numbering, position p carries p+1; the numbers are unique and are exactly 1..N; none exceeds K = 3 when at most K documents were retrieved |
| Documents.AnnotateKeepsContent | app/core.py:104-105 | numbering keeps the length, every page content and every source |
| Documents.ContextStep | app/core.py:100-105 | the context of no documents is empty; one more document appends a blank line and its block "[Документ n]: content", or is the whole context when it is the first |
| Documents.ContextHasEveryBlock | app/core.py:103-105 | every document's block with its number occurs in the context |
| Documents.ContextEnds | app/core.py:103-105 | the context begins with the first document's block and ends with the last one's |
| Documents.ContextIgnoresIndex | app/core.py:103 | the context does not depend on an index already stored in the documents |
| Citations.Token | app/core.py:115 | a marker is "[", then str(n), then "]", and holds no other bracket |
| Citations.TokenInjective | app/core.py:115 | documents with the same marker have the same index |
| Citations.TokensDistinct | app/core.py:115 | documents with different indices have different markers |
| Citations.MarkersAtSamePlace | app/core.py:115-117 | two markers that both start a text are the same marker |
| Citations.NoMarkerInsideMarker | app/core.py:115-117 | no marker starts strictly inside an occurrence of another marker |
| Citations.ReplaceKeepsOtherMarker | app/core.py:116-117 | replacing one document's marker keeps every occurrence of a different marker in the text |
| Citations.RewriteKeepsUnknownMarker | app/core.py:114-118 | a marker that no document carries is still in the answer after the whole loop, which returns a string |
| Citations.UnknownIndexSurvives | app/core.py:114-118 | after numbering, an answer holding "[n]" for n outside 1..N still holds it after the rewrite, whatever else it cites |
| Citations.RewriteCitations | app/core.py:114-118 | the loop over the document objects computes the fold of the rewrite steps over their metadata, stopping at the first KeyError |
| Citations.RewriteWithoutCitations | app/core.py:115-118 | an answer in which no document's marker occurs is returned unchanged |
| Citations.RewriteLeavesMessage | app/core.py:110-118 | a chat message object comes out of the loop unchanged, because its markers are never found |
| Citations.RewriteReturns | app/core.py:114-118 | with every index and source present the loop never raises |
| Citations.RewriteRaisesOnMissingKey | app/core.py:115-117 | when the loop raises, some document lacks "index" or "source", and the message names one of the two keys |
| Citations.RewriteIndexedRaisesOnSource | app/core.py:115-117 | over numbered documents the only possible exception is KeyError('source') |
| Citations.Dedup | app/core.py:130 | the result has no duplicates and holds exactly the elements of the input |
| Citations.SourcesOf | app/core.py:130 | the sources are returned exactly when every document has one, otherwise KeyError('source') is raised; they have no duplicates, and x is among them exactly when some document's source is x |
| Citations.SourcesIgnoreIndex | app/core.py:130 | the sources do not depend on the numbering |
| CitationExamples.RewriteTwoCitations | app/core.py:114-118 | "x[1]y[2]" becomes "x[a]y[b]" for sources a and b when x, y and a hold no '[' and a does not start with '2' |
| CitationExamples.RewriteExample | app/core.py:114-118 | "X [1] and Y [2]" with sources http://a and http://b becomes "X [http://a] and Y [http://b]" |
| CitationExamples.UnknownIndexStaysLiteral | app/core.py:115-118 | with at most K numbered documents, "see [5]" is returned unchanged |
| CitationExamples.NoSmallMarkerUnchanged | app/core.py:114-118 | a text holding none of [1] … [K] comes back unchanged from the rewrite over at most K numbered documents |
| CitationExamples.RewriteIsSequential | app/core.py:114-118 | a later step sees an earlier step's output: "[1]" with sources "2" then "http://b" ends as "[http://b]", and in the other order as "[2]" |
| CitationExamples.ReplaceWholeMarker | app/core.py:116-117 | a text that is just a marker is replaced as a whole |
| Service.ErrorResponse | app/core.py:148-153 | the error response has no sources, and its answer is the fixed prefix followed by the exception's text |
| Service.Normalise | app/core.py:140-145 | the answer is the content of a message or the string itself; the sources are those of the result, or [] when the key is absent |
| Service.AskQuestionOnError | app/core.py:136-153 | any exception in the chain gives exactly "Ошибка при обработке запроса: " + str(e) with no sources |
| Service.AskQuestionStageFailures | app/core.py:136-153 | a failed retrieval or a failed generation is reported with its own exception text |
| Service.AskQuestionMissingSource | app/core.py:114-153 | a retrieved document without a source makes the response the error text for KeyError('source'), cited or not |
| Service.AskQuestionSucceeds | app/core.py:114-147 | when the generator answers and all sources are present, the answer is the text of the rewritten answer and the sources are every document's source once |
| Service.SourcesIndependentOfAnswer | app/core.py:128-131 | whatever the generator answers, the response's sources are the same |
| Service.ChainAlwaysHasSources | app/core.py:128-145 | a successful chain result always has "sources", so the [] default never applies to it |
| Service.AnswerUncitedPassesThrough | app/core.py:115-143 | a plain answer citing no retrieved document reaches the response unchanged |
| Service.MessageCitationsKept | app/core.py:110-143 | as written, a chat message answer reaches the response with its content unchanged, markers included |
| Service.RewritePlainStaysPlain | app/core.py:116-117 | rewriting a string gives a string |
| Service.NormalisedFirstIsPlainChain | app/core.py:114-145 | the corrected chain is the program's chain given the text of the generator's answer as a plain string |
| Service.NormalisedFirstIgnoresForm | app/core.py:140-144 | normalising first, a message answer is handled exactly like a plain string of its content |
| Service.NormalisedFirstAgreesOnPlain | app/core.py:114-145 | for a generator that answers plain strings, the corrected chain and the program agree |
| Service.NormalisedFirstRewritesMessage | app/core.py:114-118 | normalising first, a message's citations are rewritten like those of a string |
| Service.AnswerQuestion | app/core.py:121-153 | over the document objects: a failed retrieval gives its error response. Otherwise each document keeps its content and source and carries the number of its last position (1..N in order for distinct objects), and the response is that of the chain over the documents so numbered. For distinct objects it equals the pure model's response |
| Bot.Reply | app/bot.py:34-36 | the answer is a prefix of the reply, and the reply equals the answer exactly when there are no sources |
| Bot.ReplyLayout | app/bot.py:35-36 | with sources, the reply is the answer, "\n\nИсточники:\n" and the sources joined by single newlines, ending with the last source |
| Bot.ReplySourcesReadBack | app/bot.py:36 | the lines after the heading are the sources in their order |
| Bot.ErrorReply | app/bot.py:34-36 | the reply to a failed request is the error text alone |
| Bot.ReplyListsRetrievedSources | app/bot.py:30-36 | end to end, the lines after the heading are the retrieved documents' sources, each once |
| Bot.ReplyListsSourcesNormalisedFirst | app/bot.py:30-36 | the same holds for the chain that normalises first |
| Findings.MessageCitationLost | app/core.py:114-119 | a message answer "[1]" over one document with source http://a gives the API answer "[1]" as written, and "[http://a]" when normalised first |

## Left out

- Loading the web pages, chunking, embeddings, the FAISS index and its persistence
  (app/core.py:26-57). These are foreign calls with floating-point similarity and file
  I/O. The retriever is an input: a list of documents, at most K = 3 by its configuration,
  or an exception.
- The language model (app/core.py:110-112). It is an input function of the question and
  the context that returns a string, a message object or an exception. The prompt wording
  (app/core.py:61-98) is a constant and is folded into that function.
- Document metadata other than "source" and "index". The chain neither reads nor writes
  any other key.
- Citations.HasToken: `marker in answer` on a chat message object is modelled as never
  true. Such objects are records whose iteration yields (field, value) pairs, never a
  string. A message type that defines substring membership is not modelled.
- Citations.SourcesOf: Python's `set` has no defined order. The model lists the sources
  in order of first appearance, but the contract promises only membership and the
  absence of duplicates.
- Documents.FormatDocs: the dense numbering 1..N is promised only for distinct objects.
  When the retriever returns the same object twice, the later write wins, and the method
  states exactly that.
- Sources that are not strings. A non-string source would fail the response record's
  validation inside the `try`, and the model assumes strings.
- Exception texts from the retriever and the model are arbitrary strings given with the
  outcome.
- The Telegram wiring: handler registration, the `/start` greeting, polling, `async` and
  sending the reply (app/bot.py:1-28, 38-41). Only the reply text is modelled.
- app/utils.py (token request), app/api.py (HTTP routes) and app/main.py (start-up) are
  not part of this model. app/models.py is mirrored as the `QAResponse` and
  `APIResponse` datatypes. Its `Union[str, AIMessage]` answer is always given a string
  by `ask_question_api`, so the model's answer is a string.

## Findings

| source | as written | input that shows it | evidently intended | confidence | as-written member | corrected member |
|---|---|---|---|---|---|---|
| app/core.py:114-119 | the citation loop runs on the raw generator result, before `.content` is taken at app/core.py:141-143; for a chat message object `marker in answer` is false, so no marker is rewritten | the chat model answers a message with content "[1]", and one document with source http://a is retrieved; the API answer is "[1]", and the bot's reply begins with "[1]" before the sources section | take the answer's text first, then rewrite its markers: the API answer is "[http://a]" | medium, not executed | Findings.MessageCitationLost | Service.NormalisedFirstRewritesMessage |
