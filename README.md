# Nigerian tax law RAG pipeline: a Dafny model of its deterministic core

This project models the deterministic parts of a retrieval-augmented chatbot
over Nigerian tax documents. The language model, the vector retriever, the
text splitter and the file system are treated as inputs. What remains is
modelled and proved:

- **The chatbot** (`src/retrieval_system.py`), in `retrieval_system.dfy`.
  - `RAGChatbot` is a class whose `chatHistory` field is updated in place by
    `ask` and `clear_history`.
  - The message list sent to the model is built by a loop. It holds the
    system prompt, a window of the last three exchanges, and a user message
    that carries the numbered context.
  - The source previews truncate text at 150 or 200 characters.
  - The interactive session classifies each input line as skip, quit,
    clear or a question. After a question whose retrieval found sources, it
    reads one more line to decide whether to list them.
- **The driver** (`main.py`), in `pipeline.dfy`.
  - Propositions are extracted from the splitter's output: blank splits are
    dropped, the rest are stripped and tagged with `source` and `doc_type`
    (default `'unknown'`).
  - The proposition texts are handed to the chunker.
  - Each chunk is turned back into a document whose text is its
    propositions joined by spaces.
- **Document loading** (`src/document_loader.py`), in `document_loader.dfy`.
  - `add_metadata` overwrites two metadata keys in place.
  - A markdown file's name is the last component of its `source` path.
  - A per-type tally of the loaded documents is kept in a dictionary, whose
    keys are ordered by insertion.
- **Shared definitions.**
  - `documents.dfy` holds the document class (mutable text and metadata)
    and metadata values, which are strings or integers.
  - `strings.dfy` holds the parts of Python's `str` that the code relies on:
    `strip`, `lower`, `join` and decimal rendering. It also holds `Split`,
    which cuts a path into its components on `/`. The code never calls
    `str.split`; `Split` stands for the path parsing that `Path(...).name`
    does at `src/document_loader.py:54`.

The retriever is a parameter `retrieve: string -> seq<Document>`. The
language model is a parameter `llm: seq<Message> -> string`. The splitter is a
parameter `split: string -> seq<string>`. The chunk dictionary is a sequence
of `(id, chunk)` pairs in iteration order. Console input is a sequence of
lines. Printed output is returned as values: the source listings.

The code and what it announces disagree in one place. Three lines announce
that only the first ten propositions are chunked: the comments at
`main.py:61` and `main.py:70`, and the message printed at `main.py:65`. But
line 71 passes all of them. The model follows the code: `PropositionTexts`
covers every proposition.

## Model

| member | source | states |
|---|---|---|
| RetrievalSystem.RAGChatbot.constructor | src/retrieval_system.py:30-38 | the history starts empty and the system prompt is the fixed tax-law instruction text |
| RetrievalSystem.RAGChatbot.Ask | src/retrieval_system.py:40-84 | the messages are the prompt built from the history as it was before the call (so the current question is not among the history messages), the retrieved context and the question; the answer is the model's reply to exactly those messages; the result carries that answer, the retrieved documents and the question; exactly one `(question, answer)` exchange is appended at the end of the history, earlier ones unchanged |
| RetrievalSystem.RAGChatbot.GetAnswer | src/retrieval_system.py:86-97 | returns the same answer `ask` would give for the same state, and changes the history exactly as `ask` does |
| RetrievalSystem.RAGChatbot.ClearHistory | src/retrieval_system.py:99-102 | the history is empty afterwards |
| RetrievalSystem.RAGChatbot.GetChatHistory | src/retrieval_system.py:104-106 | returns the current history and changes nothing |
| RetrievalSystem.RAGChatbot.AskWithSources | src/retrieval_system.py:108-137 | behaves as `ask`; when sources are requested, it yields one listing entry per retrieved document, numbered from 1; otherwise it lists nothing |
| RetrievalSystem.Window | src/retrieval_system.py:65 | the window is the suffix of the history of length min(3, length of the history) |
| RetrievalSystem.HistoryMessagesAt | src/retrieval_system.py:65-67 | for the k-th exchange of the window, message 2k is a human message with its question and message 2k+1 is an AI message with its answer |
| RetrievalSystem.PromptShape | src/retrieval_system.py:60-71 | the prompt has length 2 + 2·min(3, length of the history); it starts with the system message and ends with the single user message `Context:\n…\n\nQuestion: …`; between them come a human and an AI message for each of the last min(3, length of the history) exchanges, in chronological order |
| RetrievalSystem.PromptWithoutHistory | src/retrieval_system.py:60-71 | with an empty history, as after `clear_history`, the prompt is just the system message and the user message |
| RetrievalSystem.BuildMessages | src/retrieval_system.py:60-71 | the appending loop produces exactly the prompt, of length 2 + 2·min(3, length of the history) |
| RetrievalSystem.FormatContext | src/retrieval_system.py:54-57 | the context text handed to the model; its contract is stated by `ContextBlocks` and `FormatContextAppend` |
| RetrievalSystem.UserMessage | src/retrieval_system.py:70 | the final user message; its form is stated by `PromptShape` |
| RetrievalSystem.Prompt | src/retrieval_system.py:60-71 | the message list sent to the model; its contract is stated by `PromptShape`, `PromptWithoutHistory` and `BuildMessages` |
| RetrievalSystem.ContextBlocks | src/retrieval_system.py:54-57 | one block per retrieved document, in retrieval order; block i is numbered i+1 and titled with the document's title, or `N/A` when it has none |
| RetrievalSystem.FormatContextAppend | src/retrieval_system.py:54-57 | the context is empty exactly when nothing was retrieved; each further document adds `\n\n` and its own numbered block at the end |
| RetrievalSystem.Preview | src/retrieval_system.py:128-130 | a text of at most `limit` characters is shown unchanged; a longer one is shown as its first `limit` characters followed by `...` |
| RetrievalSystem.PreviewForms | src/retrieval_system.py:132-134 | slicing first and then appending `...` when the original was longer (the content previews) gives the same text as `Preview` |
| RetrievalSystem.SourceEntryOf | src/retrieval_system.py:126-135 | the listing entry for one document; its contract is stated by `SourceListing` |
| RetrievalSystem.SourceListing | src/retrieval_system.py:125-135 | one entry per retrieved document, numbered from 1 in order; each entry has the title (`N/A` by default), the summary truncated at 150 and the content truncated at 200 |
| RetrievalSystem.SessionSourceOf | src/retrieval_system.py:198-202 | the session's listing entry for one document; its contract is stated by `SessionListingAt` |
| RetrievalSystem.SessionListingAt | src/retrieval_system.py:197-202 | the session's listing has one entry per retrieved document, numbered from 1; entry i is titled `Untitled` when the document has no title, and its content is the text truncated at 150 characters |
| RetrievalSystem.ClassifyCases | src/retrieval_system.py:173-187 | a line is skipped exactly when it is all whitespace; it quits exactly when its stripped lower-case form is `quit`, `exit` or `q`; it clears exactly when that form is `clear`; any other line is asked, stripped |
| RetrievalSystem.ClassifyNormalised | src/retrieval_system.py:173-184 | two lines with the same stripped lower-case form are the same kind of command, and a line and its stripped form are the same command |
| RetrievalSystem.Classify | src/retrieval_system.py:173-184 | the command a line gives; its contract is stated by `ClassifyCases` and `ClassifyNormalised` |
| RetrievalSystem.Commands | src/retrieval_system.py:171-193 | the commands the session runs on a list of input lines; its contract is stated by `CommandsShape` |
| RetrievalSystem.CommandsShape | src/retrieval_system.py:171-193 | the session runs at most one command per input line, and a quit can only be the last command it runs |
| RetrievalSystem.ListedQuestions | src/retrieval_system.py:190-193 | the questions whose sources the session lists; its contract is stated by `ListedShape` |
| RetrievalSystem.ListedShape | src/retrieval_system.py:187-193 | the questions whose sources are listed are a subsequence of the questions asked, in the order asked, and each of them retrieved at least one document |
| RetrievalSystem.Replay | src/retrieval_system.py:182-187 | the history's questions after a run of commands; its contract is stated by `ReplayWithoutClear` and `ReplayAfterClear` |
| RetrievalSystem.ReplayWithoutClear | src/retrieval_system.py:182-187 | when no command clears, the history's questions are the old ones followed by every question asked, in order |
| RetrievalSystem.ReplayAfterClear | src/retrieval_system.py:182-187 | when some command clears, the history's questions are exactly those asked after the last `clear`, in order; the old ones are gone |
| RetrievalSystem.ReplayHistory | src/retrieval_system.py:182-188 | the whole history after a run of commands and their printed answers; its contract is stated by `ReplayHistoryQuestions` and `InteractiveChat` |
| RetrievalSystem.ReplayHistoryQuestions | src/retrieval_system.py:182-188 | the questions of the replayed history are the old questions replayed through the same commands, whatever the answers |
| RetrievalSystem.SessionTurn | src/retrieval_system.py:172-202 | one pass of the loop: it classifies the line and runs it; a skip or a quit leaves the history unchanged, a `clear` empties it, and a question yields the printed answer, which is the model's reply to the prompt built from the history before the pass, and appends exactly that `(question, answer)` exchange; it lists sources exactly when the question found documents and the following line answers `y`, and the listing is the numbered listing of those documents |
| RetrievalSystem.InteractiveChat | src/retrieval_system.py:171-209 | the commands run are exactly those the input lines give, up to and including the first quit; one answer is printed per question asked; the history afterwards is the old one replayed through those commands with those answers, so its questions are the old ones replayed through the commands; one listing is printed per question whose sources were requested, with one entry per retrieved document |
| Pipeline.KeptIndices | main.py:28-29 | the kept positions are increasing and in range, every kept split is non-blank after stripping, and every non-blank split is kept |
| Pipeline.DocPropositions | main.py:28-34 | the propositions one document yields; its contract is stated by `DocPropositionsKept` |
| Pipeline.DocPropositionsKept | main.py:28-34 | a document yields one proposition per non-blank split, in splitter order; each is the split stripped, tagged with the document's source and type |
| Pipeline.Propositions | main.py:22-34 | every extracted proposition text is non-empty and already stripped |
| Pipeline.PropositionsAppend | main.py:23 | documents are processed in input order: extracting from two runs of documents yields the first run's propositions followed by the second's |
| Pipeline.ExtractPropositions | main.py:22-37 | the nested appending loops produce exactly `Propositions` of the documents; source and type come from `file_name` and `doc_type`, each defaulting to `unknown` |
| Pipeline.PropositionTexts | main.py:71 | the chunker receives as many texts as there are propositions, the k-th being the k-th proposition's text |
| Pipeline.PropositionTextsClean | main.py:29-31 | every text handed to the chunker is non-empty and stripped |
| Pipeline.ChunksToDocuments | main.py:87-99 | one freshly allocated, hence distinct, document per chunk, in chunk order; its text is the chunk's propositions joined by single spaces and its metadata is exactly `chunk_id`, `title`, `summary` and `chunk_index` copied from the chunk |
| DocumentLoader.AddMetadata | src/document_loader.py:7-11 | returns the same document; its text is unchanged; `doc_type` and `file_name` are set to the given values; every other key keeps its value and no other key is added |
| DocumentLoader.FileName | src/document_loader.py:54 | the name has no separator and is not `.`; it is empty or one of the path's components |
| DocumentLoader.FileNameOfJoin | src/document_loader.py:54 | a plain name is its own file name, and stays the file name whatever directory precedes it |
| DocumentLoader.MarkdownFileName | src/document_loader.py:54 | the `file_name` given to a markdown document; its contract is stated by `MarkdownFileNameOf` |
| DocumentLoader.MarkdownFileNameOf | src/document_loader.py:54 | with no `source`, the file name is `unknown`; with a source `dir/name`, it is `name` |
| DocumentLoader.DocTypes | src/document_loader.py:64-65 | one type per document, in order; a missing `doc_type` reads as `unknown` |
| DocumentLoader.FirstSeen | src/document_loader.py:63-66 | the dictionary's keys in insertion order; its contract is stated by `FirstSeenKeys` |
| DocumentLoader.TallyOf | src/document_loader.py:63-66 | the dictionary's counts; its contract is stated by `TallyOfCounts` and `TallyOfTotal` |
| DocumentLoader.FirstSeenKeys | src/document_loader.py:63-66 | the dictionary's keys, in insertion order, list every occurring type exactly once |
| DocumentLoader.TallyOfCounts | src/document_loader.py:63-66 | the tally has a key exactly for each occurring type, and counts each type as often as it occurs |
| DocumentLoader.TallyOfTotal | src/document_loader.py:63-66 | the counts add up to the number of documents tallied |
| DocumentLoader.TallyDocTypes | src/document_loader.py:63-66 | the loop's key order is first-appearance order; its keys are exactly the occurring types; each count is the number of documents of that type and at least 1; the counts sum to the number of documents |
| Strings.StripShape | src/retrieval_system.py:173 | stripping yields the empty string exactly for all-whitespace input, and otherwise a string that neither starts nor ends with whitespace |
| Strings.StripCharacterized | main.py:29-31 | whatever lies between a run of leading and a run of trailing whitespace, and neither starts nor ends with whitespace, is exactly what stripping returns |
| Strings.StripIdempotent | main.py:31 | stripping twice is the same as stripping once |
| Strings.JoinLength | src/retrieval_system.py:54 | a join is as long as its parts plus one separator between each neighbouring pair |
| Strings.SplitJoin | src/document_loader.py:54 | joining parts that do not contain the separator and splitting the result on it gives the parts back |
| Strings.JoinSplit | src/document_loader.py:54 | splitting a path on `/` and joining the pieces with `/` gives the path back |
| Strings.NatToString | src/retrieval_system.py:55 | the rendering of a number is a non-empty string of decimal digits, starting with `0` only for zero |
| Strings.ParseNatToString | src/retrieval_system.py:55 | the rendered document number reads back as that number |

## Left out

- The agentic chunker (`src/agentic_chunker.py`) is not part of this model. Its source is not among the repository files modelled. The chunks it produces are an input to `Pipeline.ChunksToDocuments`.
- The language model, the vector retriever, embeddings and the vector store are parameters or left out. This covers `ChatOpenAI`, `as_retriever` with k = 5, the temperature and the model name. The model assumes the retriever and the language model are deterministic functions, so two calls with the same input give the same result.
- The text splitter's internals (chunk size, overlap and separators) are left out. The splitter is a function parameter.
- Loading PDF and Markdown files, directory globbing, and the per-file exception handling of the loader are left out. `src/chat_interface.py` and `src/embeddings_manager.py` are not part of this model.
- Console output is left out. `print` becomes returned values where it carries data: the source listings, and the command sequence the session runs. Banner text and emoji are not modelled.
- `str.strip` and `str.lower` are modelled over ASCII only: the whitespace `\t\n\v\f\r`, space and `\x1c`–`\x1f`, and the letters `A`–`Z`. Python's Unicode whitespace and case mapping are not modelled. Slicing counts characters, as Python counts code points.
- `Path(...).name` is modelled for POSIX paths only. A Windows drive or backslash is not treated as a separator.
- RetrievalSystem.InteractiveChat: the contents of each printed listing are stated per pass by `RetrievalSystem.SessionTurn`. Across the whole session, only the number of listings and the number of entries in each are stated.
- RetrievalSystem.InteractiveChat: that each printed answer is the model's reply to the prompt of its pass is stated per pass by `RetrievalSystem.SessionTurn`. Across the whole session, the answers are stated through the history they leave.
- RetrievalSystem.InteractiveChat: the session ends at the end of the input lines. In Python, `input()` then raises `EOFError`, which the `except Exception` branch catches, so the loop would retry forever. `KeyboardInterrupt` and the error branch (an exception from the retriever or the model) are not modelled: the model's retriever and language model always return.
- RetrievalSystem.RAGChatbot.GetChatHistory returns the history as a value. Python returns the list object itself, which a caller could mutate; that aliasing is not modelled.
- RetrievalSystem.SourceEntryOf renders a non-string `title` or `summary` with `str`. For a non-string summary, Python's `len(summary)` would raise `TypeError` instead. Chunk metadata always stores strings there.
- DocumentLoader.MarkdownFileName returns `None` for a non-string `source`, standing for the `TypeError` that `Path` raises on such a value.
