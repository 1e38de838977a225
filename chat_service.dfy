/**
  The `/api/chat` handler of app/main.py as a session object that owns the chat history.

  The handler's collaborators are not modelled; what each of them returns (or the exception
  it raises) on this turn is an input, a `Backend`. The method returns, besides the reply,
  the list of external calls it made with their arguments, so that which collaborators are
  consulted, and with what, is part of its contract.
*/
module ChatService {
  import opened Common
  import opened Strings
  import opened Routing
  import opened Ranking
  import opened Answers
  import opened History

  /** What an external call did: returned a value or raised an exception with a message. */
  datatype Call<T> = Returns(value: T) | Raises(message: string)

  /** The collaborators' results for one turn:
      - `retrieve`: page contents of `retriever.get_relevant_documents(prompt)`;
      - `score`: `cross_encoder.predict(pairs)`, one score per pair;
      - `order`: the index order `scores.argsort()` returns, which numpy leaves open among
        equal scores;
      - `chain`: `chain.invoke(...)`;
      - `llm`: the content of `llm.invoke(general_prompt)`. */
  datatype Backend = Backend(
    retrieve: Call<seq<string>>,
    score: Call<seq<int>>,
    order: seq<nat>,
    chain: Call<string>,
    llm: Call<string>)

  /** What the collaborators guarantee: once documents are retrieved and scored, there is one
      score per document and `order` is an admissible `argsort` of the scores. */
  predicate WellFormed(backend: Backend)
  {
    backend.retrieve.Returns? && backend.score.Returns? ==>
      |backend.score.value| == |backend.retrieve.value| && IsArgsort(backend.score.value, backend.order)
  }

  /** The external calls a turn can make, with their arguments. */
  datatype ExternalCall =
    | Retrieve(query: string)
    | Score(pairs: seq<(string, string)>)
    | InvokeChain(question: string, history: string)
    | InvokeLlm(prompt: string)

  /** The handler's answer: the 503 error, or the response body. */
  datatype Reply =
    | Unavailable(status: int, detail: string)
    | Answered(response: string, chatHistory: seq<string>)

  const NotInitialisedDetail := "RAG-Pipeline nicht initialisiert."

  /** `[(prompt, doc.page_content) for doc in retrieved_docs]`. */
  function Pairs(prompt: string, docs: seq<string>): (r: seq<(string, string)>)
    ensures |r| == |docs| && forall i :: 0 <= i < |docs| ==> r[i] == (prompt, docs[i])
  {
    seq(|docs|, i requires 0 <= i < |docs| => (prompt, docs[i]))
  }

  /** The first line of `general_prompt`. */
  const GeneralInstruction := "You are a friendly assistant. Provide a concise answer to the question, using the chat history as context if relevant. If the history is empty or unrelated, answer the question directly."
  /** The indentation of the continuation lines of `general_prompt`. */
  const TemplateIndent := "            "

  /** `general_prompt`: the instruction line, then the history text, the question and the
      answer cue, each on an indented line; both the history text and the question occur
      in it. */
  function GeneralPrompt(historyText: string, prompt: string): (r: string)
    ensures Occurs(historyText, r) && Occurs(prompt, r)
  {
    var opening := GeneralInstruction + "\n" + TemplateIndent + "Chat History: ";
    var middle := "\n" + TemplateIndent + "Question: ";
    var closing := "\n" + TemplateIndent + "Answer:";
    assert opening + historyText + middle + prompt + closing
        == opening + historyText + (middle + prompt + closing);
    OccursInMiddle(opening, historyText, middle + prompt + closing);
    OccursInMiddle(opening + historyText + middle, prompt, closing);
    opening + historyText + middle + prompt + closing
  }

  /** The turn's history was updated as a successful turn with this response. */
  predicate Succeeded(before: seq<string>, after: seq<string>, reply: Reply, prompt: string, response: string)
  {
    after == RecordTurn(before, prompt, response) && reply == Answered(response, after)
  }

  /** The turn's history was updated as a turn that raised with this message. */
  predicate Failed(before: seq<string>, after: seq<string>, reply: Reply, prompt: string, message: string)
  {
    after == RecordFailure(before, prompt, message) && reply == Answered(ErrorText(message), after)
  }

  /** What the `try` block of a turn produces before the history is touched: the answer
      text or the exception raised, the external calls made, and the reranked context when
      one was computed. */
  datatype Attempt = Attempt(outcome: Call<string>, calls: seq<ExternalCall>, context: Option<string>)

  /** The document path: retrieval, the fixed answer when nothing is found, scoring of every
      (prompt, document) pair and top-3 selection, the chain call with the raw history, and
      the three repairs of its answer. `history` is the history at the start of the turn. */
  function FromDocuments(prompt: string, history: seq<string>, backend: Backend): (r: Attempt)
    requires WellFormed(backend)
    ensures 1 <= |r.calls| <= 3 && r.calls[0] == Retrieve(prompt)
  {
    match backend.retrieve
    case Raises(m) => Attempt(Raises(m), [Retrieve(prompt)], None)
    case Returns(docs) =>
      if docs == [] then Attempt(Returns(NoInformationAnswer), [Retrieve(prompt)], None)
      else
        var scoring := [Retrieve(prompt), Score(Pairs(prompt, docs))];
        match backend.score
        case Raises(m) => Attempt(Raises(m), scoring, None)
        case Returns(scores) =>
          var context := Join(" ", Ranked(docs, scores, backend.order, TopCount));
          var calls := scoring + [InvokeChain(prompt, Join("\n", history))];
          match backend.chain
          case Raises(m) => Attempt(Raises(m), calls, Some(context))
          case Returns(answer) => Attempt(Returns(PostProcess(answer, prompt)), calls, Some(context))
  }

  /** The general path: one model call with the rendered history, and the fixed sentence for
      a blank reply. */
  function Directly(prompt: string, history: seq<string>, backend: Backend): (r: Attempt)
    ensures |r.calls| == 1 && r.calls[0].InvokeLlm? && r.context == None
  {
    var calls := [InvokeLlm(GeneralPrompt(RenderHistory(history), prompt))];
    match backend.llm
    case Raises(m) => Attempt(Raises(m), calls, None)
    case Returns(content) => Attempt(Returns(GeneralReply(content)), calls, None)
  }

  /** The `try` block of a turn: the keyword test chooses the path. It makes one to three
      external calls, and a context is computed only on the document path, after retrieval. */
  function TurnAttempt(prompt: string, history: seq<string>, backend: Backend): (r: Attempt)
    requires WellFormed(backend)
    ensures 1 <= |r.calls| <= 3
    ensures r.context.Some? ==> IsDocRelated(prompt) && r.calls[0] == Retrieve(prompt)
  {
    if IsDocRelated(prompt) then FromDocuments(prompt, history, backend)
    else Directly(prompt, history, backend)
  }

  /** A turn goes to the retriever exactly when the prompt holds a document keyword, and
      otherwise to the model alone. */
  lemma RoutedByKeywords(prompt: string, history: seq<string>, backend: Backend)
    requires WellFormed(backend)
    ensures var r := TurnAttempt(prompt, history, backend);
            |r.calls| >= 1
            && (r.calls[0] == Retrieve(prompt) <==>
                exists k :: 0 <= k < |DocRelatedKeywords| && Occurs(Lower(DocRelatedKeywords[k]), Lower(prompt)))
            && (r.calls[0].InvokeLlm? <==> !IsDocRelated(prompt))
  {
  }

  /** When the retriever finds nothing the fixed answer is given and neither the scorer nor
      the chain is called. The multi-query retriever calls the model itself to write its
      query variants; that call happens inside `Retrieve` and is not recorded separately. */
  lemma NothingRetrievedSkipsScorerAndChain(prompt: string, history: seq<string>, backend: Backend)
    requires WellFormed(backend) && backend.retrieve == Returns([])
    ensures var r := FromDocuments(prompt, history, backend);
            r.calls == [Retrieve(prompt)] && r.context == None
            && r.outcome == Returns(NoInformationAnswer)
  {
  }

  /** Every retrieved document is scored against the prompt, in retrieval order. */
  lemma EveryDocumentScored(prompt: string, history: seq<string>, backend: Backend)
    requires WellFormed(backend) && backend.retrieve.Returns? && backend.retrieve.value != []
    ensures var r := FromDocuments(prompt, history, backend);
            var docs := backend.retrieve.value;
            |r.calls| >= 2 && r.calls[1].Score? && |r.calls[1].pairs| == |docs|
            && forall i :: 0 <= i < |docs| ==> r.calls[1].pairs[i] == (prompt, docs[i])
  {
  }

  /** The chain receives the question and the history joined by newlines, never the reranked
      context: the context is only computed (and logged). */
  lemma ChainSeesHistoryNotContext(prompt: string, history: seq<string>, backend: Backend)
    requires WellFormed(backend)
    ensures var r := FromDocuments(prompt, history, backend);
            forall i :: 0 <= i < |r.calls| && r.calls[i].InvokeChain? ==>
              r.calls[i] == InvokeChain(prompt, Join("\n", history))
  {
  }

  /** The context, when there is one, joins the min(3, n) best-scored documents, best first,
      whichever order among equal scores `argsort` returned. */
  lemma ContextIsTopThree(prompt: string, history: seq<string>, backend: Backend)
    requires WellFormed(backend)
    requires FromDocuments(prompt, history, backend).context.Some?
    ensures backend.retrieve.Returns? && backend.retrieve.value != [] && backend.score.Returns?
    ensures var docs, scores := backend.retrieve.value, backend.score.value;
            exists sel :: IsTopSelection(scores, sel, TopCount)
              && FromDocuments(prompt, history, backend).context == Some(Join(" ", Pick(docs, sel)))
  {
    var docs, scores := backend.retrieve.value, backend.score.value;
    var top := Ranked(docs, scores, backend.order, TopCount);
    var sel :| IsTopSelection(scores, sel, TopCount) && top == Pick(docs, sel);
    assert FromDocuments(prompt, history, backend).context == Some(Join(" ", Pick(docs, sel)));
  }

  /** The document path raises exactly when a collaborator it reached raised, with the
      message of the first one that did. */
  lemma FromDocumentsRaises(prompt: string, history: seq<string>, backend: Backend)
    requires WellFormed(backend)
    ensures var r := FromDocuments(prompt, history, backend);
            r.outcome.Raises? <==>
              (backend.retrieve.Raises?
               || (backend.retrieve.value != []
                   && (backend.score.Raises? || backend.chain.Raises?)))
    ensures var r := FromDocuments(prompt, history, backend);
            r.outcome.Raises? ==>
              r.outcome.message ==
                if backend.retrieve.Raises? then backend.retrieve.message
                else if backend.score.Raises? then backend.score.message
                else backend.chain.message
  {
  }

  /** A document-path answer is the fixed sentence for an empty retrieval, or else the
      chain's answer repaired, and then never longer than it. */
  lemma FromDocumentsAnswer(prompt: string, history: seq<string>, backend: Backend)
    requires WellFormed(backend)
    requires FromDocuments(prompt, history, backend).outcome.Returns?
    ensures var answer := FromDocuments(prompt, history, backend).outcome.value;
            if backend.retrieve == Returns([]) then answer == NoInformationAnswer
            else backend.chain.Returns? && answer == PostProcess(backend.chain.value, prompt)
                 && |answer| <= |backend.chain.value|
  {
    if backend.retrieve != Returns([]) {
      PostProcessNeverLonger(backend.chain.value, prompt);
    }
  }

  /** The general prompt carries both the question and the rendered history. */
  lemma GeneralPromptCarries(prompt: string, history: seq<string>, backend: Backend)
    ensures var call := Directly(prompt, history, backend).calls[0];
            Occurs(prompt, call.prompt) && Occurs(RenderHistory(history), call.prompt)
  {
  }

  /** A general-path answer is never blank and already stripped; it is the model's reply,
      stripped, unless that is blank. */
  lemma DirectlyAnswer(prompt: string, history: seq<string>, backend: Backend)
    requires backend.llm.Returns?
    ensures var r := Directly(prompt, history, backend);
            r.outcome.Returns? && r.outcome.value != "" && Stripped(r.outcome.value)
            && (Strip(backend.llm.value) != "" ==> r.outcome.value == Strip(backend.llm.value))
  {
  }

  /** The general path raises exactly when the model call raises, and with its message. */
  lemma DirectlyRaises(prompt: string, history: seq<string>, backend: Backend)
    ensures Directly(prompt, history, backend).outcome.Raises? <==> backend.llm.Raises?
    ensures Directly(prompt, history, backend).outcome.Raises? ==>
      Directly(prompt, history, backend).outcome.message == backend.llm.message
  {
  }

  /** A successful turn leaves at most ten lines, its own two last, and answers with what
      it recorded. */
  lemma SucceededWithinCap(before: seq<string>, after: seq<string>, reply: Reply, prompt: string, response: string)
    requires Succeeded(before, after, reply, prompt, response)
    ensures |after| <= HistoryCap && after[|after| - 2..] == ["User: " + prompt, "Bot: " + response]
    ensures reply.response == response && reply.chatHistory == after
  {
  }

  /** The document path as the handler runs it, reassigning `response` through the three
      repairs; it makes the calls and produces the outcome that `FromDocuments` describes. */
  method AnswerFromDocuments(prompt: string, history: seq<string>, backend: Backend)
    returns (outcome: Call<string>, calls: seq<ExternalCall>, context: Option<string>)
    requires WellFormed(backend)
    ensures Attempt(outcome, calls, context) == FromDocuments(prompt, history, backend)
  {
    calls := [Retrieve(prompt)];
    context := None;
    match backend.retrieve {
      case Raises(m) =>
        outcome := Raises(m);
      case Returns(docs) =>
        if docs == [] {
          outcome := Returns(NoInformationAnswer);
        } else {
          calls := [Retrieve(prompt), Score(Pairs(prompt, docs))];
          match backend.score {
            case Raises(m) =>
              outcome := Raises(m);
            case Returns(scores) =>
              var rankedDocs := Ranked(docs, scores, backend.order, TopCount);
              context := Some(Join(" ", rankedDocs));
              calls := calls + [InvokeChain(prompt, Join("\n", history))];
              match backend.chain {
                case Raises(m) =>
                  outcome := Raises(m);
                case Returns(answer) =>
                  var response := RepairAnswer(answer, prompt);
                  outcome := Returns(response);
              }
          }
        }
    }
  }

  /** The three repairs of the chain's answer, reassigning `response` as the handler does. */
  method RepairAnswer(answer: string, prompt: string) returns (response: string)
    ensures response == PostProcess(answer, prompt)
  {
    response := answer;
    if Contains(response, prompt) {
      response := Strip(RemoveAll(response, prompt));
    }
    assert response == StripEcho(answer, prompt);
    ghost var echoFree := response;
    if Contains(response, HistoryPreambleMarker) {
      response := Strip(AfterFirst(response, ParagraphBreak));
    }
    assert response == DropHistoryPreamble(echoFree);
    ghost var preambleFree := response;
    if Contains(response, DisclaimerMarker) {
      response := Strip(Split(response, DisclaimerCut)[0]);
    }
    assert response == CutDisclaimer(preambleFree);
  }

  /** The general path as the handler runs it; it makes the call and produces the outcome
      that `Directly` describes. */
  method AnswerDirectly(prompt: string, history: seq<string>, backend: Backend)
    returns (outcome: Call<string>, calls: seq<ExternalCall>)
    ensures Attempt(outcome, calls, None) == Directly(prompt, history, backend)
  {
    var historyText := if history != [] then Join("\n", history) else NoPreviousConversation;
    assert historyText == RenderHistory(history);
    calls := [InvokeLlm(GeneralPrompt(historyText, prompt))];
    match backend.llm {
      case Raises(m) =>
        outcome := Raises(m);
      case Returns(content) =>
        var response := Strip(content);
        if response == "" {
          response := DefaultGeneralReply;
        }
        assert response == GeneralReply(content);
        outcome := Returns(response);
    }
  }

  /** The process-wide chat state: `chat_history`. */
  class ChatSession {
    var history: seq<string>

    /** The history is empty when the service starts. */
    constructor ()
      ensures history == []
    {
      history := [];
    }

    /** One `POST /api/chat` turn. `initialised` says whether startup has set the chain and
        the model. Unless it answers 503, the turn makes the calls of `TurnAttempt` and
        records its outcome: a stripped response, or the exception's message. */
    method Chat(initialised: bool, prompt: string, backend: Backend)
      returns (reply: Reply, calls: seq<ExternalCall>, context: Option<string>)
      requires WellFormed(backend)
      modifies this
      ensures !initialised ==>
        reply == Unavailable(503, NotInitialisedDetail) && calls == [] && context == None
        && history == old(history)
      ensures initialised ==>
        var attempt := TurnAttempt(prompt, old(history), backend);
        calls == attempt.calls && context == attempt.context
        && match attempt.outcome
           case Returns(response) => Succeeded(old(history), history, reply, prompt, Strip(response))
           case Raises(m) => Failed(old(history), history, reply, prompt, m)
    {
      calls := [];
      context := None;
      if !initialised {
        reply := Unavailable(503, NotInitialisedDetail);
        return;
      }
      var outcome: Call<string>;
      if IsDocRelated(prompt) {
        outcome, calls, context := AnswerFromDocuments(prompt, history, backend);
      } else {
        outcome, calls := AnswerDirectly(prompt, history, backend);
      }
      reply := Record(prompt, outcome);
    }

    /** The end of the turn: a response is stripped, recorded and the history cut to the
        cap; an exception's message is recorded as an error with no cut. */
    method Record(prompt: string, outcome: Call<string>) returns (reply: Reply)
      modifies this
      ensures match outcome
              case Returns(response) => Succeeded(old(history), history, reply, prompt, Strip(response))
              case Raises(m) => Failed(old(history), history, reply, prompt, m)
    {
      match outcome {
        case Returns(response) =>
          var textResponse := Strip(response);
          ghost var appended := history + Exchange(prompt, textResponse);
          history := history + ["User: " + prompt, "Bot: " + textResponse];
          assert history == appended;
          if |history| > HistoryCap {
            history := history[|history| - HistoryCap..];
          }
          assert history == KeepLast(appended, HistoryCap);
          reply := Answered(textResponse, history);
        case Raises(m) =>
          var errorMsg := "Error: " + m;
          history := history + ["User: " + prompt, "Bot: " + errorMsg];
          assert errorMsg == ErrorText(m);
          reply := Answered(errorMsg, history);
      }
    }
  }
}
