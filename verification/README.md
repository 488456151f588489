# Chat pipeline of a retrieval-augmented assistant, in Dafny

This project models the pure logic at the core of a small
retrieval-augmented chat assistant and proves properties of it. It covers
four pieces:

- **Grounded context formatting** (`src/rag/vertex_client.py`). Retrieved
  contexts become numbered context lines (`[i] text\n`) and a duplicate-free
  set of citation basenames. When no line is produced, the fixed sentinel
  `"No relevant documents found."` is returned instead.
- **LLM adapter** (`src/llm/adapter.py`). `_req` reads required environment
  variables. `call_llm` validates its configuration in a fixed order (provider,
  then model, then API key) and builds the `generateContent` request.
  `_extract_text` pulls the answer out of the response tree.
- **Chat turn** (`src/ui/web/view_chat.py`). One pass of the chat page is a
  pure transition over the session state (`history`, `session_id`). Steps:
  idempotent session initialisation, early return on empty input, two error
  paths that leave the history alone, a sorted "Sources" suffix, one history
  append per answered turn, and a best-effort save.
- **Routing** (`src/ui/web/app.py`). The admin view is rendered only for a
  non-empty `admin` query parameter that equals `ADMIN_TOKEN`. Both the
  current and the legacy query-parameter APIs are modelled.

Modules:

| file | module | contents |
|---|---|---|
| results.dfy | Results | `Option`, `Result` (failure-compatible) |
| text.dfy | Text | Python `isspace`, `strip`, ASCII `lower`, `join`, decimal rendering and parsing, character counts |
| ordering.dfy | Ordering | Python's code-point string order, `sorted`, uniqueness of sorted permutations |
| vertex_client.dfy | VertexClient | the formatting loop, numbering, citations, sentinel |
| context_parse.dfy | ContextParse | a parser for the formatted context, proved to invert the formatting |
| adapter.dfy | Adapter | `_req`, `_extract_text`, `call_llm` |
| view_chat.dfy | ViewChat | one chat turn |
| app.dfy | App | the routing decision |

Several outside effects are parameters rather than modelled code:

- `ViewChat.ChatTurn` takes three functions: `retrieve` (what
  `get_grounded_context` returns or raises), `generate` (what `call_llm`
  returns or raises) and `save` (whether `save_chat_turn` succeeded).
- The id that `uuid4` would generate is the parameter `freshId`.
- `Adapter.CallLlm` takes the HTTP exchange as the parameter `post`.
- `VertexClient.GetGroundedContext` takes the retrieved contexts after their
  fields have been read. Each context is either its text and source URI, or
  `Unreadable` when reading it raised.

`src/config/keys.py` is not part of this model. The two model ids
(`gemini-1.5-pro`, `gemini-2.5-pro`) and the key variable name
(`GEMINI_STUDIO_API_KEY`) come from the docstring of `src/llm/adapter.py`
(lines 13-22).

## Model

| member | source | states |
|---|---|---|
| VertexClient.GetGroundedContext | src/rag/vertex_client.py:36-92 | If no readable context has text, the result is exactly the sentinel with no citations. Otherwise it is the context text of the readable prefix, with a duplicate-free citation list whose members are exactly the citation set. |
| VertexClient.FormatContexts | src/rag/vertex_client.py:57-77 | The loop's accumulated text and citation set equal the reference definitions over the readable prefix. The loop stops at the first context that raises. |
| VertexClient.Readable | src/rag/vertex_client.py:39-87 | The contexts processed before an exception: the longest prefix of contexts that could all be read. The first excluded one, if any, is the one that raised. |
| VertexClient.UnreadableTruncates | src/rag/vertex_client.py:57-92 | An exception while reading context k swallows k and every later context. The result equals what the earlier contexts alone produce. |
| VertexClient.Numbering | src/rag/vertex_client.py:57-75 | Line numbers lie in 1..n and strictly increase along the context. |
| VertexClient.NumberingCovers | src/rag/vertex_client.py:57-75 | Context k (0-based) emits a line, numbered k+1 after its index in the full list, if and only if its text is non-empty. Contexts with empty text are skipped, so numbers may have gaps. |
| VertexClient.NumberingContent | src/rag/vertex_client.py:64-75 | Each emitted line's text is the non-empty, newline-flattened text of the context its number points at. |
| VertexClient.NumberingLength | src/rag/vertex_client.py:74-75 | The number of lines equals the number of contexts with non-empty text. |
| VertexClient.Flatten | src/rag/vertex_client.py:64 | Every newline becomes a space and every other character is kept in place. The length is unchanged and no newline is left. |
| VertexClient.Basename | src/rag/vertex_client.py:77 | A citation never contains '/'. |
| VertexClient.BasenameIsLastSegment | src/rag/vertex_client.py:77 | The citation is the longest '/'-free suffix of the source: the text after the last '/'. |
| VertexClient.CitationsMembers | src/rag/vertex_client.py:74-77 | A string is cited if and only if it is the basename of the source of some context with both non-empty text and a non-empty source. |
| VertexClient.ListOf | src/rag/vertex_client.py:92 | `list(citations)` holds every member of the set exactly once, in some order. |
| VertexClient.ContextTextEmpty | src/rag/vertex_client.py:74-90 | The built text is empty, so the sentinel is returned, if and only if no readable context has text. |
| VertexClient.ContextShape | src/rag/vertex_client.py:75-92 | A non-sentinel context is non-empty, ends in a newline, and holds exactly one newline per context with text. The sentinel ends without one. |
| VertexClient.LinesNewlines | src/rag/vertex_client.py:75 | Formatted lines with newline-free text give a text with exactly as many newlines as lines, and a non-empty one ends in a newline. |
| VertexClient.LineNewlines | src/rag/vertex_client.py:75 | One formatted line with newline-free text holds exactly one newline. |
| ContextParse.ParseContextText | src/rag/vertex_client.py:57-75 | Parsing the context text recovers exactly the emitted (number, text) lines. The formatting is lossless. |
| ContextParse.ParseLineOfLine | src/rag/vertex_client.py:75 | One `[n] text\n` line followed by anything parses back to (n, text) and that remainder. |
| Adapter.Require | src/llm/adapter.py:34-38 | `_req` fails, naming the variable, exactly when it is unset or empty. Otherwise it returns the value unchanged. |
| Adapter.ExtractText | src/llm/adapter.py:41-51 | With no candidates the answer is "". Otherwise it is the strip of the first candidate's non-empty part texts joined by newlines, so it has no whitespace at either end. |
| Adapter.OnlyFirstCandidate | src/llm/adapter.py:42-45 | Candidates after the first never change the answer. |
| Adapter.EmptyPartsIgnored | src/llm/adapter.py:46-50 | Inserting a part with empty or missing text anywhere never changes the texts that are joined. |
| Adapter.NonEmptyTexts | src/llm/adapter.py:46-50 | The texts kept for joining are all non-empty, and there are at most as many as there are parts. |
| Adapter.NonEmptyPartKept | src/llm/adapter.py:46-50 | A part with non-empty text keeps its text, in its own place between the texts kept before and after it. With `EmptyPartsIgnored` this fixes the filter exactly. |
| Adapter.Validate | src/llm/adapter.py:54-63 | Validation succeeds if and only if the provider strips and lower-cases to "gemini", the stripped model id is supported, and the key is set. On success it yields the stripped model id and the key. The first failing check in the order provider, model, key decides the error. An unset or empty variable gives the missing-variable error naming it. A set but rejected provider gives the unsupported-provider error with its stripped, lower-cased value. A set but unsupported model gives the unsupported-model error with its stripped value. |
| Adapter.ErrorMessage | src/llm/adapter.py:37-61 | The text of each raised error. The missing-variable message is "Missing required environment variable: " followed by the name. The unsupported-provider and unsupported-model messages put the offending value between their fixed prefix and suffix, and both texts are pinned. A transport error keeps its own text. |
| Adapter.ConfigMessageIdentifies | src/llm/adapter.py:37-61 | Two configuration errors with the same message text are the same error, so the text shown identifies the error. |
| Adapter.ValidateReadsOnlyItsVariables | src/llm/adapter.py:54-63 | Validation depends on nothing but the three variables it reads. |
| Adapter.BuildRequest | src/llm/adapter.py:65-80 | The payload has temperature 0 and `maxOutputTokens` 1000000. It carries the system prompt as the system instruction, with role "system", and the user query as the single user message. |
| Adapter.EndpointRoundTrip | src/llm/adapter.py:65 | The URL embeds exactly the model id and the key; both can be read back from it. |
| Adapter.RequestSent | src/llm/adapter.py:63-80 | After successful validation, the request goes to the validated model with the validated key, at temperature 0 and the fixed output limit. |
| Adapter.CallLlm | src/llm/adapter.py:54-85 | A configuration error is raised before any request. Otherwise the one request built from the validated settings is posted with the caller's timeout. A transport failure propagates, and a reply yields the extracted text. |
| Adapter.ConfigErrorSendsNothing | src/llm/adapter.py:54-63 | With a rejected configuration the result does not depend on the network at all. |
| ViewChat.InitSession | src/ui/web/view_chat.py:35-38 | Afterwards both keys are present. An existing history or session id is never overwritten. An absent history becomes [] and an absent id becomes the fresh one. |
| ViewChat.InitIdempotent | src/ui/web/view_chat.py:35-38 | Initialising an already initialised session changes nothing, whatever fresh id the second pass would use. |
| ViewChat.Prompt | src/ui/web/view_chat.py:73 | The prompt is the "CONTEXT:" header, the context verbatim, the "USER QUESTION:" separator, then the question verbatim at the end. |
| ViewChat.PromptDeterminesParts | src/ui/web/view_chat.py:73 | Given the question's length, the prompt determines both the context and the question. |
| ViewChat.WithSources | src/ui/web/view_chat.py:86-89 | The raw answer is a prefix of the shown answer. The two are equal if and only if there are no citations. |
| ViewChat.SourcesListSorted | src/ui/web/view_chat.py:88 | With citations, the suffix is the sources header followed by one "- c" line per citation, in sorted order, joined by newlines. |
| ViewChat.SourcesIgnoreOrder | src/ui/web/view_chat.py:86-89 | The shown answer does not depend on the order of the citation list. |
| ViewChat.SourcesOfSetListing | src/ui/web/view_chat.py:88 | Any two duplicate-free listings of the same citation set are shown identically. |
| ViewChat.ChatTurn | src/ui/web/view_chat.py:35-104 | One pass of the page. The turn ends with no question exactly when the input is missing or empty, and then only the state is initialised. A retrieval failure shows "Error retrieving documents: " followed by its reason. A generation failure after a successful retrieval shows "Error communicating with the language model: " followed by its reason. Each of these happens exactly in its own case and leaves the state as initialised. An answer is shown with its sources exactly when both calls succeed. Then exactly one exchange is appended and the row saved holds the session id, question, context and shown answer. The session id never changes within a pass. |
| ViewChat.SaveOutcomeIrrelevant | src/ui/web/view_chat.py:94-104 | A failed save leaves the state exactly as a successful one does. The appended exchange stays. |
| ViewChat.HistoryOnlyGrows | src/ui/web/view_chat.py:94 | A pass appends at most one exchange and never rewrites earlier ones. |
| ViewChat.SessionIdStable | src/ui/web/view_chat.py:37-38 | Once a pass has set the session id, later passes keep it, whatever id they would have generated. |
| ViewChat.GenerateWith | src/ui/web/view_chat.py:75-83 | `call_llm` as the generation step. A generation succeeds exactly when the call returns, with the returned text as the answer. Otherwise it fails with the raised exception's text. |
| ViewChat.BadConfigNeverAnswers | src/ui/web/view_chat.py:75-83 | When `call_llm` rejects its configuration, no pass shows an answer or changes the history. After a successful retrieval, the page shows the language-model error prefix followed by the configuration error's text. |
| App.AdminParam | src/ui/web/app.py:19-27 | Current API: the parameter's value, or none when it is absent. Legacy API: none when the key is missing or its list is empty, otherwise the first value. |
| App.Route | src/ui/web/app.py:29-32 | The admin view is rendered if and only if the parameter is present, non-empty and equal to a set `ADMIN_TOKEN`. Every other request renders the chat view, so exactly one view is rendered. |
| App.NoTokenNoAdmin | src/ui/web/app.py:29 | With `ADMIN_TOKEN` unset or empty, the admin view is never rendered. |
| App.LegacyAgreesWithCurrent | src/ui/web/app.py:23-27 | The legacy path routes like the current one on the first listed value. A missing key or an empty list routes like an absent parameter. |
| Text.ToLower | src/llm/adapter.py:55 | The length is kept, no upper-case ASCII letter remains, each of `A`-`Z` becomes its lower-case letter, and every other character is unchanged. |
| Text.Strip | src/llm/adapter.py:51 | `str.strip()`: the result is the infix of the input left after removing only whitespace from both ends, and it has no whitespace at either end. |
| Text.StripUnique | src/llm/adapter.py:51 | That description determines the strip uniquely. |
| Text.JoinEnds | src/llm/adapter.py:51 | A non-empty join opens with the first part and closes with the last part. |
| Text.JoinSnoc | src/llm/adapter.py:51 | Joining one more part appends exactly the separator and that part. By induction, exactly one separator lies between neighbouring parts and nothing else is added. |
| Text.JoinSeparators | src/llm/adapter.py:51 | Joining parts that do not contain a one-character separator, such as "\n", yields exactly one separator fewer than there are parts. |
| Text.DecimalRoundTrip | src/rag/vertex_client.py:75 | The decimal line number reads back as the number it renders. |
| Ordering.SortedUnique | src/ui/web/view_chat.py:88 | Two sorted lists with the same elements, counted with multiplicity, are equal. |
| Ordering.Sort | src/ui/web/view_chat.py:88 | `sorted()` returns a sorted permutation of its input, in Python's code-point order. |

## Left out

- The retrieval SDK call and corpus configuration (`src/rag/vertex_client.py:23-33`) are left out, because they are a foreign service call. The retrieved contexts are an input.
- The probing of the response's shape (`src/rag/vertex_client.py:40-72`) is left out, because it depends on the SDK's object layout. The model starts from each context's text and source URI, or from the fact that reading it raised. An exception while finding the context list itself is the same as an empty list.
- The diagnostic `print` calls in the exception handler of `src/rag/vertex_client.py` are left out. They have no effect on the result.
- A non-string source URI would make `os.path.basename` raise after the context's line was already appended. This is not modelled: source URIs are strings here.
- `list(citations)` has an order Python does not specify. `VertexClient.ListOf` picks members in an unspecified order too, and only order-free facts are stated about it.
- The HTTP POST, `raise_for_status` and JSON decoding in `src/llm/adapter.py` are network I/O. They are the `post` parameter, whose reply is either a decoded body or a failure.
- A JSON `null` in place of the `content` object or the `parts` list makes `_extract_text` raise. This is not modelled: in the response tree, keys are only present or absent.
- Text.ToLower: folds only `A`-`Z`. Python's `str.lower()` also lowers other Unicode letters, and those mappings are not modelled.
- The `logger` module, all logging and the `perf_counter` timings are left out. They are side effects without influence on results.
- Streamlit rendering is left out: page config, CSS, title, model caption, the example text, replaying past turns, spinner and footer. It is UI output only. Error messages are kept as `Outcome` values.
- `save_chat_turn` and the database modules are left out, because they are I/O. Whether the save succeeded is the `save` parameter, and the row it is given is modelled.
- The admin UI, the corpus bootstrap script and the example-questions constant have no logic to model, so they are left out.
- `render_admin` and `view_chat` as called from `main` are left out: `App.Route` returns which view is rendered.

## Design choices

- A configuration error from `call_llm` reaches the chat page as a failed generation whose message is the exception text (`Adapter.ErrorMessage`). This matches the page catching every exception from the call.
- When retrieval finds nothing, the sentinel text is still sent to the model as the context. The source does this, and the model follows it.
