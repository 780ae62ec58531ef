/** The conversational front of the pipeline (src/retrieval_system.py): the
    chatbot's conversation history, the messages it sends to the language
    model, the source previews it shows, and the interactive session's command
    handling. The retriever and the language model are parameters: a
    function from question to retrieved documents, and a function from the
    message list to the reply text. */
module RetrievalSystem {
  import opened Strings
  import opened Documents

  datatype Message = SystemMessage(content: string) | HumanMessage(content: string) | AIMessage(content: string)

  /** One `(question, answer)` pair of `chat_history`. */
  datatype Exchange = Exchange(question: string, answer: string)

  /** The dictionary `ask` returns. */
  datatype AskResult = AskResult(answer: string, context: seq<Document>, question: string)

  const SystemPrompt: string :=
    "You are a helpful AI assistant specializing in Nigerian tax law. "
    + "Use the following pieces of retrieved context to answer the question. "
    + "If you don't know the answer based on the context, say that you don't know. "
    + "Keep the answer concise and accurate."

  /** How many past exchanges go into each prompt. */
  const HistoryWindow: nat := 3

  function Min(a: int, b: int): int
  {
    if a <= b then a else b
  }

  /** `chat_history[-3:]`: the last three exchanges, or all when there are fewer. */
  function Window(history: seq<Exchange>): (w: seq<Exchange>)
    ensures |w| == Min(HistoryWindow, |history|)
    ensures w == history[|history| - |w|..]
  {
    if |history| <= HistoryWindow then history else history[|history| - HistoryWindow..]
  }

  /** A human message then an AI message for each exchange, oldest first. */
  function HistoryMessages(window: seq<Exchange>): (r: seq<Message>)
    ensures |r| == 2 * |window|
  {
    if window == [] then []
    else
      var last := window[|window| - 1];
      HistoryMessages(window[..|window| - 1]) + [HumanMessage(last.question), AIMessage(last.answer)]
  }

  lemma {:induction false} HistoryMessagesAt(window: seq<Exchange>, k: nat)
    requires k < |window|
    ensures HistoryMessages(window)[2 * k] == HumanMessage(window[k].question)
    ensures HistoryMessages(window)[2 * k + 1] == AIMessage(window[k].answer)
    decreases |window|
  {
    if k < |window| - 1 {
      HistoryMessagesAt(window[..|window| - 1], k);
    }
  }

  /** The documents the retriever returns for a question. */
  function Retrieved(retrieve: string -> seq<Document>, question: string): seq<Document>
  {
    retrieve(question)
  }

  /** The language model's reply to a message list. */
  function Reply(llm: seq<Message> -> string, messages: seq<Message>): string
  {
    llm(messages)
  }

  /** The message that carries the retrieved context and the question. */
  function UserMessage(context: string, question: string): string
  {
    "Context:\n" + context + "\n\nQuestion: " + question
  }

  /** The messages `ask` sends to the language model. */
  function Prompt(systemPrompt: string, history: seq<Exchange>, context: string, question: string): seq<Message>
  {
    [SystemMessage(systemPrompt)] + HistoryMessages(Window(history)) + [HumanMessage(UserMessage(context, question))]
  }

  /** The prompt is one system message, then a human and an AI message for
      each of the last min(3, |history|) exchanges in chronological order,
      then the single user message. */
  lemma PromptShape(systemPrompt: string, history: seq<Exchange>, context: string, question: string, k: nat)
    ensures var p := Prompt(systemPrompt, history, context, question);
      && |p| == 2 + 2 * Min(HistoryWindow, |history|)
      && p[0] == SystemMessage(systemPrompt)
      && p[|p| - 1] == HumanMessage(UserMessage(context, question))
      && (k < Min(HistoryWindow, |history|) ==>
            var e := history[|history| - Min(HistoryWindow, |history|) + k];
            p[1 + 2 * k] == HumanMessage(e.question) && p[2 + 2 * k] == AIMessage(e.answer))
  {
    var w := Window(history);
    var h := HistoryMessages(w);
    var p := Prompt(systemPrompt, history, context, question);
    assert p == [SystemMessage(systemPrompt)] + h + [HumanMessage(UserMessage(context, question))];
    if k < |w| {
      HistoryMessagesAt(w, k);
      assert p[1 + 2 * k] == h[2 * k] && p[2 + 2 * k] == h[2 * k + 1];
      assert w[k] == history[|history| - |w| + k];
    }
  }

  /** With an empty history, as after `clear_history`, the prompt carries no
      earlier exchange: just the system message and the user message. */
  lemma PromptWithoutHistory(systemPrompt: string, context: string, question: string)
    ensures Prompt(systemPrompt, [], context, question) ==
              [SystemMessage(systemPrompt), HumanMessage(UserMessage(context, question))]
  {
    var p := Prompt(systemPrompt, [], context, question);
    PromptShape(systemPrompt, [], context, question, 0);
    assert |p| == 2;
  }

  /** The message-building loop of `ask`. */
  method BuildMessages(systemPrompt: string, history: seq<Exchange>, context: string, question: string)
    returns (messages: seq<Message>)
    ensures messages == Prompt(systemPrompt, history, context, question)
    ensures |messages| == 2 + 2 * Min(HistoryWindow, |history|)
  {
    messages := [SystemMessage(systemPrompt)];
    var window := Window(history);
    for k := 0 to |window|
      invariant messages == [SystemMessage(systemPrompt)] + HistoryMessages(window[..k])
    {
      assert window[..k + 1][..k] == window[..k];
      messages := messages + [HumanMessage(window[k].question)];
      messages := messages + [AIMessage(window[k].answer)];
    }
    assert window[..|window|] == window;
    messages := messages + [HumanMessage(UserMessage(context, question))];
  }

  /** The context block of the document at 1-based position `n`. */
  function ContextBlock(n: nat, d: Document): string
    reads d
  {
    "Document " + NatToString(n) + " (Title: " + Show(Get(d.metadata, "title", Str("N/A"))) + "):\n" + d.pageContent
  }

  /** One block per retrieved document, numbered from 1 in retrieval order. */
  function ContextBlocks(docs: seq<Document>): (r: seq<string>)
    reads docs
    ensures |r| == |docs|
    ensures forall i :: 0 <= i < |docs| ==> r[i] == ContextBlock(i + 1, docs[i])
  {
    if docs == [] then [] else ContextBlocks(docs[..|docs| - 1]) + [ContextBlock(|docs|, docs[|docs| - 1])]
  }

  /** The `context` string of `ask`. */
  function FormatContext(docs: seq<Document>): string
    reads docs
  {
    Join("\n\n", ContextBlocks(docs))
  }

  /** The context is empty exactly when nothing was retrieved; each further
      document adds a blank line and its own numbered block at the end. */
  lemma FormatContextAppend(docs: seq<Document>, d: Document)
    ensures FormatContext(docs) == "" <==> docs == []
    ensures FormatContext(docs + [d]) ==
              (if docs == [] then "" else FormatContext(docs) + "\n\n") + ContextBlock(|docs| + 1, d)
  {
    var blocks := ContextBlocks(docs + [d]);
    assert (docs + [d])[..|docs|] == docs;
    assert blocks[..|blocks| - 1] == ContextBlocks(docs);
    if docs != [] {
      var own := ContextBlocks(docs);
      JoinLength("\n\n", own);
      assert |own[|own| - 1]| > 0;
    }
  }

  /** The text shown for a long string: its first `limit` characters and "...";
      a string of at most `limit` characters is shown whole. */
  function Preview(s: string, limit: nat): (r: string)
    ensures |s| <= limit ==> r == s
    ensures |s| > limit ==> |r| == limit + 3 && r[..limit] == s[..limit] && r[limit..] == "..."
  {
    if |s| > limit then s[..limit] + "..." else s
  }

  /** The other way the source writes the same preview: slice first, then add
      "..." when the original was longer. */
  function SliceThenMark(s: string, limit: nat): string
  {
    var cut := if |s| <= limit then s else s[..limit];
    if |s| > limit then cut + "..." else cut
  }

  lemma PreviewForms(s: string, limit: nat)
    ensures SliceThenMark(s, limit) == Preview(s, limit)
  {
  }

  /** What `ask_with_sources` prints for one source. */
  datatype SourceEntry = SourceEntry(number: nat, title: string, summary: string, content: string)

  function SourceEntryOf(n: nat, d: Document): SourceEntry
    reads d
  {
    SourceEntry(n, Show(Get(d.metadata, "title", Str("N/A"))),
                Preview(Show(Get(d.metadata, "summary", Str("N/A"))), 150),
                SliceThenMark(d.pageContent, 200))
  }

  /** The numbered source listing of `ask_with_sources`. */
  function SourceListing(docs: seq<Document>): (r: seq<SourceEntry>)
    reads docs
    ensures |r| == |docs|
    ensures forall i :: 0 <= i < |docs| ==> r[i] == SourceEntryOf(i + 1, docs[i])
  {
    if docs == [] then [] else SourceListing(docs[..|docs| - 1]) + [SourceEntryOf(|docs|, docs[|docs| - 1])]
  }

  /** What the interactive session prints for one source when asked to. */
  datatype SessionSource = SessionSource(number: nat, title: string, content: string)

  function SessionSourceOf(n: nat, d: Document): SessionSource
    reads d
  {
    SessionSource(n, Show(Get(d.metadata, "title", Str("Untitled"))), SliceThenMark(d.pageContent, 150))
  }

  /** The numbered listing the session prints after a "y" answer. */
  function SessionListing(docs: seq<Document>): seq<SessionSource>
    reads docs
  {
    if docs == [] then [] else SessionListing(docs[..|docs| - 1]) + [SessionSourceOf(|docs|, docs[|docs| - 1])]
  }

  /** One entry per retrieved document, numbered from 1, titled "Untitled" when
      the chunk has no title, with at most 150 characters of its text. */
  lemma {:induction false} SessionListingAt(docs: seq<Document>, i: nat)
    requires i < |docs|
    ensures |SessionListing(docs)| == |docs|
    ensures SessionListing(docs)[i] == SessionSourceOf(i + 1, docs[i])
    ensures var e := SessionListing(docs)[i];
      && e.title == (if "title" in docs[i].metadata then Show(docs[i].metadata["title"]) else "Untitled")
      && e.content == Preview(docs[i].pageContent, 150)
    decreases |docs|
  {
    PreviewForms(docs[i].pageContent, 150);
    if i < |docs| - 1 {
      SessionListingAt(docs[..|docs| - 1], i);
    } else if |docs| > 1 {
      SessionListingAt(docs[..|docs| - 1], 0);
    }
  }

  /** The answer to "Show sources?" that asks for them. */
  function ShowSources(answer: string): bool
  {
    Lower(Strip(answer)) == "y"
  }

  /** A command of the interactive session, read from one input line. */
  datatype Command = Skip | Quit | Clear | AskQuestion(question: string)

  /** How the session reads a line: stripped, then compared case-insensitively
      with the command words. */
  function Classify(line: string): Command
  {
    var q := Strip(line);
    if q == [] then Skip
    else if Lower(q) in ["quit", "exit", "q"] then Quit
    else if Lower(q) == "clear" then Clear
    else AskQuestion(q)
  }

  /** Blank lines are skipped, the quit words end the session and "clear"
      clears it whatever their case and surrounding whitespace; every other
      line is asked, stripped. */
  lemma ClassifyCases(line: string)
    ensures Classify(line) == Skip <==> AllSpace(line)
    ensures Classify(line) == Quit <==> Lower(Strip(line)) in {"quit", "exit", "q"}
    ensures Classify(line) == Clear <==> Lower(Strip(line)) == "clear"
    ensures Classify(line).AskQuestion? ==>
              Classify(line).question == Strip(line) && !AllSpace(line)
              && Lower(Strip(line)) !in {"quit", "exit", "q", "clear"}
  {
    StripShape(line);
  }

  /** Surrounding whitespace and letter case never change which command a
      line is, and a line reads the same once stripped. */
  lemma ClassifyNormalised(a: string, b: string)
    requires Lower(Strip(a)) == Lower(Strip(b))
    ensures Classify(a).Skip? == Classify(b).Skip?
    ensures Classify(a).Quit? == Classify(b).Quit?
    ensures Classify(a).Clear? == Classify(b).Clear?
    ensures Classify(Strip(a)) == Classify(a)
  {
    StripIdempotent(a);
    assert |Strip(a)| == |Lower(Strip(a))| == |Strip(b)|;
  }

  /** The commands a session runs on the given input lines: it stops at a quit
      word or at the end of input, and after a question whose retrieval found
      sources the next line answers "Show sources?" instead of being a command. */
  function Commands(lines: seq<string>, retrieve: string -> seq<Document>): seq<Command>
    decreases |lines|
  {
    if lines == [] then []
    else
      var c := Classify(lines[0]);
      if c == Quit then [Quit]
      else [c] + Commands(lines[Min(LinesRead(c, retrieve), |lines|)..], retrieve)
  }

  /** How many input lines a command takes: two for a question whose
      retrieval found sources (the second answers "Show sources?"), one otherwise. */
  function LinesRead(c: Command, retrieve: string -> seq<Document>): nat
  {
    if c.AskQuestion? && |Retrieved(retrieve, c.question)| > 0 then 2 else 1
  }

  /** The session's first command on the remaining lines, and where it resumes. */
  lemma CommandsStep(lines: seq<string>, pos: nat, retrieve: string -> seq<Document>)
    requires pos < |lines|
    ensures var c := Classify(lines[pos]);
      Commands(lines[pos..], retrieve) ==
        if c == Quit then [Quit]
        else [c] + Commands(lines[Min(pos + LinesRead(c, retrieve), |lines|)..], retrieve)
  {
    var c := Classify(lines[pos]);
    assert lines[pos..][Min(LinesRead(c, retrieve), |lines| - pos)..] ==
           lines[Min(pos + LinesRead(c, retrieve), |lines|)..];
  }

  /** The questions whose sources the session lists, in order: those whose
      retrieval found sources and whose next line answers "y". */
  function ListedQuestions(lines: seq<string>, retrieve: string -> seq<Document>): seq<string>
    decreases |lines|
  {
    if lines == [] then []
    else
      var c := Classify(lines[0]);
      if c == Quit then []
      else
        var rest := ListedQuestions(lines[Min(LinesRead(c, retrieve), |lines|)..], retrieve);
        if c.AskQuestion? && |Retrieved(retrieve, c.question)| > 0 && |lines| >= 2 && ShowSources(lines[1])
        then [c.question] + rest
        else rest
  }

  lemma ListedStep(lines: seq<string>, pos: nat, retrieve: string -> seq<Document>)
    requires pos < |lines|
    ensures var c := Classify(lines[pos]);
      var rest := ListedQuestions(lines[Min(pos + LinesRead(c, retrieve), |lines|)..], retrieve);
      ListedQuestions(lines[pos..], retrieve) ==
        if c == Quit then []
        else if c.AskQuestion? && |Retrieved(retrieve, c.question)| > 0 && pos + 1 < |lines| && ShowSources(lines[pos + 1])
        then [c.question] + rest
        else rest
  {
    var c := Classify(lines[pos]);
    assert lines[pos..][Min(LinesRead(c, retrieve), |lines| - pos)..] ==
           lines[Min(pos + LinesRead(c, retrieve), |lines|)..];
    if pos + 1 < |lines| {
      assert lines[pos..][1] == lines[pos + 1];
    }
  }

  /** The questions of a history. */
  function Questions(history: seq<Exchange>): (r: seq<string>)
    ensures |r| == |history|
  {
    if history == [] then [] else Questions(history[..|history| - 1]) + [history[|history| - 1].question]
  }

  /** The questions of the history after running `commands` on one whose
      questions were `questions`. */
  function Replay(questions: seq<string>, commands: seq<Command>): seq<string>
  {
    if commands == [] then questions
    else
      var before := Replay(questions, commands[..|commands| - 1]);
      match commands[|commands| - 1]
      case Clear => []
      case AskQuestion(q) => before + [q]
      case _ => before
  }

  /** The questions asked by `commands`, in order. */
  function Asked(commands: seq<Command>): seq<string>
  {
    if commands == [] then []
    else
      var c := commands[|commands| - 1];
      Asked(commands[..|commands| - 1]) + (if c.AskQuestion? then [c.question] else [])
  }

  lemma {:induction false} AskedAppend(a: seq<Command>, b: seq<Command>)
    ensures Asked(a + b) == Asked(a) + Asked(b)
    decreases |b|
  {
    if b == [] {
      assert a + b == a;
    } else {
      var n := |b| - 1;
      AskedAppend(a, b[..n]);
      assert (a + b)[..|a + b| - 1] == a + b[..n];
    }
  }

  /** Without a `clear`, the history's questions are the old ones followed by
      every question asked. */
  lemma {:induction false} ReplayWithoutClear(questions: seq<string>, commands: seq<Command>)
    requires forall i :: 0 <= i < |commands| ==> !commands[i].Clear?
    ensures Replay(questions, commands) == questions + Asked(commands)
    decreases |commands|
  {
    if commands != [] {
      ReplayWithoutClear(questions, commands[..|commands| - 1]);
    }
  }

  /** After the last `clear`, the history holds exactly the questions asked
      since, whatever it held before. */
  lemma {:induction false} ReplayAfterClear(questions: seq<string>, commands: seq<Command>, i: nat)
    requires i < |commands| && commands[i].Clear?
    requires forall j :: i < j < |commands| ==> !commands[j].Clear?
    ensures Replay(questions, commands) == Asked(commands[i + 1..])
    decreases |commands|
  {
    var n := |commands| - 1;
    if i < n {
      var init := commands[..n];
      ReplayAfterClear(questions, init, i);
      assert commands[i + 1..] == init[i + 1..] + [commands[n]];
      AskedAppend(init[i + 1..], [commands[n]]);
      assert Asked([commands[n]]) == Asked([commands[n]][..0]) + (if commands[n].AskQuestion? then [commands[n].question] else []);
    } else {
      assert commands[i + 1..] == [];
    }
  }

  /** A session never runs more commands than it reads lines, and a quit can
      only be its last command. */
  lemma {:induction false} CommandsShape(lines: seq<string>, retrieve: string -> seq<Document>)
    ensures |Commands(lines, retrieve)| <= |lines|
    ensures forall i :: 0 <= i < |Commands(lines, retrieve)| - 1 ==> Commands(lines, retrieve)[i] != Quit
    decreases |lines|
  {
    if lines != [] {
      var c := Classify(lines[0]);
      if c != Quit {
        var rest := lines[Min(LinesRead(c, retrieve), |lines|)..];
        CommandsShape(rest, retrieve);
        var all := Commands(lines, retrieve);
        forall i | 0 <= i < |all| - 1
          ensures all[i] != Quit
        {
          if i > 0 {
            assert all[i] == Commands(rest, retrieve)[i - 1];
          }
        }
      }
    }
  }

  /** `a` is obtained from `b` by deleting elements. */
  predicate Subsequence<T(==)>(a: seq<T>, b: seq<T>)
    decreases |b|
  {
    if b == [] then a == []
    else Subsequence(a, b[1..]) || (a != [] && a[0] == b[0] && Subsequence(a[1..], b[1..]))
  }

  lemma SubsequencePrefix<T>(a: seq<T>, b: seq<T>, x: T, take: bool)
    requires Subsequence(a, b)
    ensures Subsequence(if take then [x] + a else a, [x] + b)
  {
    assert ([x] + b)[1..] == b;
    if take {
      assert ([x] + a)[1..] == a;
    }
  }

  /** Sources are listed only for questions the session asked, in the order
      it asked them, and only when their retrieval found something. */
  lemma {:induction false} ListedShape(lines: seq<string>, retrieve: string -> seq<Document>)
    ensures Subsequence(ListedQuestions(lines, retrieve), Asked(Commands(lines, retrieve)))
    ensures forall i :: 0 <= i < |ListedQuestions(lines, retrieve)| ==>
              |Retrieved(retrieve, ListedQuestions(lines, retrieve)[i])| > 0
    decreases |lines|
  {
    if lines != [] {
      var c := Classify(lines[0]);
      assert Asked([c]) == Asked([c][..0]) + (if c.AskQuestion? then [c.question] else []);
      if c == Quit {
        assert Commands(lines, retrieve) == [c];
      } else {
        var rest := lines[Min(LinesRead(c, retrieve), |lines|)..];
        ListedShape(rest, retrieve);
        ListedCons(lines, retrieve, c, rest);
      }
    }
  }

  /** The step of `ListedShape` for a first line that does not quit. */
  lemma ListedCons(lines: seq<string>, retrieve: string -> seq<Document>, c: Command, rest: seq<string>)
    requires lines != [] && c == Classify(lines[0]) && c != Quit
    requires rest == lines[Min(LinesRead(c, retrieve), |lines|)..]
    requires Asked([c]) == if c.AskQuestion? then [c.question] else []
    requires Subsequence(ListedQuestions(rest, retrieve), Asked(Commands(rest, retrieve)))
    requires forall i :: 0 <= i < |ListedQuestions(rest, retrieve)| ==>
               |Retrieved(retrieve, ListedQuestions(rest, retrieve)[i])| > 0
    ensures Subsequence(ListedQuestions(lines, retrieve), Asked(Commands(lines, retrieve)))
    ensures forall i :: 0 <= i < |ListedQuestions(lines, retrieve)| ==>
              |Retrieved(retrieve, ListedQuestions(lines, retrieve)[i])| > 0
  {
    var listedRest := ListedQuestions(rest, retrieve);
    var commandsRest := Commands(rest, retrieve);
    var shown := c.AskQuestion? && |Retrieved(retrieve, c.question)| > 0 && |lines| >= 2 && ShowSources(lines[1]);
    assert ListedQuestions(lines, retrieve) == if shown then [c.question] + listedRest else listedRest;
    assert Commands(lines, retrieve) == [c] + commandsRest;
    AskedAppend([c], commandsRest);
    if c.AskQuestion? {
      SubsequencePrefix(listedRest, Asked(commandsRest), c.question, shown);
    } else {
      assert Asked(Commands(lines, retrieve)) == Asked(commandsRest);
    }
  }

  /** The history after running `commands`, when the questions among them
      were answered with `answers` in turn. */
  function ReplayHistory(history: seq<Exchange>, commands: seq<Command>, answers: seq<string>): seq<Exchange>
    requires |answers| == |Asked(commands)|
    decreases |commands|
  {
    if commands == [] then history
    else
      var c := commands[|commands| - 1];
      var init := commands[..|commands| - 1];
      if c.AskQuestion? then
        ReplayHistory(history, init, answers[..|answers| - 1]) + [Exchange(c.question, answers[|answers| - 1])]
      else if c.Clear? then []
      else ReplayHistory(history, init, answers)
  }

  lemma ReplayHistorySnoc(history: seq<Exchange>, commands: seq<Command>, answers: seq<string>,
                          c: Command, reply: string, more: seq<string>)
    requires |answers| == |Asked(commands)|
    requires more == if c.AskQuestion? then answers + [reply] else answers
    ensures |more| == |Asked(commands + [c])|
    ensures ReplayHistory(history, commands + [c], more) ==
              if c.Clear? then []
              else if c.AskQuestion? then ReplayHistory(history, commands, answers) + [Exchange(c.question, reply)]
              else ReplayHistory(history, commands, answers)
  {
    assert (commands + [c])[..|commands|] == commands;
    if c.AskQuestion? {
      assert more[..|more| - 1] == answers && more[|more| - 1] == reply;
    }
  }

  /** The questions of the replayed history are the replayed questions. */
  lemma {:induction false} ReplayHistoryQuestions(history: seq<Exchange>, commands: seq<Command>, answers: seq<string>)
    requires |answers| == |Asked(commands)|
    ensures Questions(ReplayHistory(history, commands, answers)) == Replay(Questions(history), commands)
    decreases |commands|
  {
    if commands != [] {
      var c := commands[|commands| - 1];
      var init := commands[..|commands| - 1];
      if c.AskQuestion? {
        var before := ReplayHistory(history, init, answers[..|answers| - 1]);
        ReplayHistoryQuestions(history, init, answers[..|answers| - 1]);
        var after := before + [Exchange(c.question, answers[|answers| - 1])];
        assert after[..|after| - 1] == before;
      } else if !c.Clear? {
        ReplayHistoryQuestions(history, init, answers);
      }
    }
  }

  class RAGChatbot {
    var chatHistory: seq<Exchange>
    const systemPrompt: string

    constructor ()
      ensures chatHistory == [] && systemPrompt == SystemPrompt
    {
      chatHistory := [];
      systemPrompt := SystemPrompt;
    }

    /** `ask`: retrieves, prompts the model with the recent history and the
        numbered context, and records the exchange at the end of the history. */
    method Ask(question: string, retrieve: string -> seq<Document>, llm: seq<Message> -> string)
      returns (result: AskResult, messages: seq<Message>)
      modifies this
      ensures messages == old(Prompt(systemPrompt, chatHistory, FormatContext(Retrieved(retrieve, question)), question))
      ensures result == AskResult(Reply(llm, messages), Retrieved(retrieve, question), question)
      ensures chatHistory == old(chatHistory) + [Exchange(question, result.answer)]
    {
      var docs := Retrieved(retrieve, question);
      var context := FormatContext(docs);
      messages := BuildMessages(systemPrompt, chatHistory, context, question);
      var answer := Reply(llm, messages);
      chatHistory := chatHistory + [Exchange(question, answer)];
      result := AskResult(answer, docs, question);
    }

    /** `get_answer`: the answer `ask` gives, with the same effect on the history. */
    method GetAnswer(question: string, retrieve: string -> seq<Document>, llm: seq<Message> -> string)
      returns (answer: string)
      modifies this
      ensures answer == Reply(llm, old(Prompt(systemPrompt, chatHistory, FormatContext(Retrieved(retrieve, question)), question)))
      ensures chatHistory == old(chatHistory) + [Exchange(question, answer)]
    {
      var result, _ := Ask(question, retrieve, llm);
      answer := result.answer;
    }

    method ClearHistory()
      modifies this
      ensures chatHistory == []
    {
      chatHistory := [];
    }

    method GetChatHistory() returns (history: seq<Exchange>)
      ensures history == chatHistory
    {
      history := chatHistory;
    }

    /** `ask_with_sources`: `ask`, plus the source listing it prints when
        asked to and something was retrieved. */
    method AskWithSources(question: string, showSources: bool, retrieve: string -> seq<Document>,
                          llm: seq<Message> -> string)
      returns (result: AskResult, messages: seq<Message>, listing: seq<SourceEntry>)
      modifies this
      ensures messages == old(Prompt(systemPrompt, chatHistory, FormatContext(Retrieved(retrieve, question)), question))
      ensures result == AskResult(Reply(llm, messages), Retrieved(retrieve, question), question)
      ensures chatHistory == old(chatHistory) + [Exchange(question, result.answer)]
      ensures listing == if showSources then SourceListing(result.context) else []
    {
      result, messages := Ask(question, retrieve, llm);
      listing := [];
      if showSources && |result.context| > 0 {
        listing := SourceListing(result.context);
      }
    }
  }

  /** A session `pos` lines into `lines` has run `commands` and listed the
      sources of `listed`, and the rest of the input accounts for the rest. */
  ghost predicate SessionAt(lines: seq<string>, retrieve: string -> seq<Document>, pos: nat,
                            commands: seq<Command>, listed: seq<string>)
  {
    && pos <= |lines|
    && commands + Commands(lines[pos..], retrieve) == Commands(lines, retrieve)
    && listed + ListedQuestions(lines[pos..], retrieve) == ListedQuestions(lines, retrieve)
  }

  lemma SessionQuit(lines: seq<string>, retrieve: string -> seq<Document>, pos: nat,
                    commands: seq<Command>, listed: seq<string>)
    requires SessionAt(lines, retrieve, pos, commands, listed) && pos < |lines|
    requires Classify(lines[pos]) == Quit
    ensures commands + [Quit] == Commands(lines, retrieve) && listed == ListedQuestions(lines, retrieve)
  {
    CommandsStep(lines, pos, retrieve);
    ListedStep(lines, pos, retrieve);
  }

  lemma SessionNext(lines: seq<string>, retrieve: string -> seq<Document>, pos: nat,
                    commands: seq<Command>, listed: seq<string>, c: Command, next: nat, shown: bool)
    requires SessionAt(lines, retrieve, pos, commands, listed) && pos < |lines|
    requires c == Classify(lines[pos]) && c != Quit
    requires next == Min(pos + LinesRead(c, retrieve), |lines|)
    requires shown == (c.AskQuestion? && |Retrieved(retrieve, c.question)| > 0 && pos + 1 < |lines| && ShowSources(lines[pos + 1]))
    ensures SessionAt(lines, retrieve, next, commands + [c], if shown then listed + [c.question] else listed)
  {
    var rest := Commands(lines[next..], retrieve);
    assert commands + ([c] + rest) == Commands(lines, retrieve) by {
      CommandsStep(lines, pos, retrieve);
    }
    AppendAssoc(commands, [c], rest);
    var restListed := ListedQuestions(lines[next..], retrieve);
    if shown {
      assert listed + ([c.question] + restListed) == ListedQuestions(lines, retrieve) by {
        ListedStep(lines, pos, retrieve);
      }
      AppendAssoc(listed, [c.question], restListed);
    } else {
      assert listed + restListed == ListedQuestions(lines, retrieve) by {
        ListedStep(lines, pos, retrieve);
      }
    }
  }

  /** Kept apart so that the session proofs see associativity for just
      these three sequences. */
  lemma AppendAssoc<T>(a: seq<T>, b: seq<T>, c: seq<T>)
    ensures (a + b) + c == a + (b + c)
  {
  }

  lemma SessionDone(lines: seq<string>, retrieve: string -> seq<Document>, commands: seq<Command>, listed: seq<string>)
    requires SessionAt(lines, retrieve, |lines|, commands, listed)
    ensures commands == Commands(lines, retrieve) && listed == ListedQuestions(lines, retrieve)
  {
    assert lines[|lines|..] == [];
  }

  /** Each listing printed so far lists one entry per document retrieved for
      the corresponding question. */
  ghost predicate ListingsFit(listings: seq<seq<SessionSource>>, listed: seq<string>, retrieve: string -> seq<Document>)
  {
    |listings| == |listed| && forall i :: 0 <= i < |listings| ==> |listings[i]| == |Retrieved(retrieve, listed[i])|
  }

  /** Kept apart so that the session loop does not reason about the whole
      quantifier of `ListingsFit` at once. */
  lemma ListingsFitSnoc(listings: seq<seq<SessionSource>>, listed: seq<string>, retrieve: string -> seq<Document>,
                        listing: seq<SessionSource>, q: string)
    requires ListingsFit(listings, listed, retrieve) && |listing| == |Retrieved(retrieve, q)|
    ensures ListingsFit(listings + [listing], listed + [q], retrieve)
  {
  }

  /** One pass of the session loop: reads the command at `pos`, runs it, and
      reads the answer to "Show sources?" when the question found sources.
      `reply` is the answer printed for a question; `next` is where the
      following pass reads. */
  method SessionTurn(bot: RAGChatbot, lines: seq<string>, pos: nat, retrieve: string -> seq<Document>,
                     llm: seq<Message> -> string)
    returns (command: Command, next: nat, reply: Option<string>, listing: Option<seq<SessionSource>>)
    requires pos < |lines|
    modifies bot
    ensures command == Classify(lines[pos])
    ensures next == Min(pos + LinesRead(command, retrieve), |lines|)
    ensures reply.Some? <==> command.AskQuestion?
    ensures command.AskQuestion? ==>
              reply == Some(Reply(llm, old(Prompt(bot.systemPrompt, bot.chatHistory,
                                                  FormatContext(Retrieved(retrieve, command.question)), command.question))))
    ensures bot.chatHistory ==
              if command.Clear? then []
              else if command.AskQuestion? then old(bot.chatHistory) + [Exchange(command.question, reply.value)]
              else old(bot.chatHistory)
    ensures listing.Some? <==>
              command.AskQuestion? && |Retrieved(retrieve, command.question)| > 0 && pos + 1 < |lines| && ShowSources(lines[pos + 1])
    ensures listing.Some? ==> listing.value == SessionListing(Retrieved(retrieve, command.question))
  {
    command := Classify(lines[pos]);
    next := Min(pos + LinesRead(command, retrieve), |lines|);
    reply, listing := None, None;
    match command {
      case Quit =>
      case Skip =>
      case Clear =>
        bot.ClearHistory();
      case AskQuestion(q) =>
        var result, _, _ := bot.AskWithSources(q, false, retrieve, llm);
        reply := Some(result.answer);
        if |result.context| > 0 && pos + 1 < |lines| {
          // the next line answers "Show sources?"
          var show := Lower(Strip(lines[pos + 1]));
          if show == "y" {
            listing := Some(SessionListing(result.context));
          }
        }
    }
  }

  /** `interactive_chat` on a finite list of input lines: the commands it
      runs, the answers it prints, the history it leaves, and the source
      listings it prints. */
  method InteractiveChat(bot: RAGChatbot, lines: seq<string>, retrieve: string -> seq<Document>,
                         llm: seq<Message> -> string)
    returns (commands: seq<Command>, answers: seq<string>, listings: seq<seq<SessionSource>>)
    modifies bot
    ensures commands == Commands(lines, retrieve)
    ensures |answers| == |Asked(commands)|
    ensures bot.chatHistory == ReplayHistory(old(bot.chatHistory), commands, answers)
    ensures Questions(bot.chatHistory) == Replay(Questions(old(bot.chatHistory)), commands)
    ensures |listings| == |ListedQuestions(lines, retrieve)|
    ensures forall i :: 0 <= i < |listings| ==> |listings[i]| == |Retrieved(retrieve, ListedQuestions(lines, retrieve)[i])|
  {
    commands, answers, listings := [], [], [];
    ghost var listed: seq<string> := [];
    var pos := 0;
    while pos < |lines|
      invariant SessionAt(lines, retrieve, pos, commands, listed)
      invariant |answers| == |Asked(commands)|
      invariant bot.chatHistory == ReplayHistory(old(bot.chatHistory), commands, answers)
      invariant ListingsFit(listings, listed, retrieve)
      decreases |lines| - pos
    {
      var command, next, reply, listing := SessionTurn(bot, lines, pos, retrieve, llm);
      var more := if reply.Some? then answers + [reply.value] else answers;
      ReplayHistorySnoc(old(bot.chatHistory), commands, answers, command, if reply.Some? then reply.value else "", more);
      if command == Quit {
        SessionQuit(lines, retrieve, pos, commands, listed);
        commands := commands + [command];
        break;
      }
      SessionNext(lines, retrieve, pos, commands, listed, command, next, listing.Some?);
      commands, answers := commands + [command], more;
      if listing.Some? {
        SessionListingAt(Retrieved(retrieve, command.question), 0);
        ListingsFitSnoc(listings, listed, retrieve, listing.value, command.question);
        listings := listings + [listing.value];
        listed := listed + [command.question];
      }
      pos := next;
    }
    if pos == |lines| {
      SessionDone(lines, retrieve, commands, listed);
    }
    ReplayHistoryQuestions(old(bot.chatHistory), commands, answers);
  }
}
