/** The chain-cache client as a state machine over its requests.

    One `query` of the base class makes any number of attempts, each a call of
    `_query`, and then returns or raises.  The server's replies and all exceptions
    are arbitrary. */
module ChainClient {
  import opened ChatValues
  import opened Strings
  import opened Wrappers

  // ----- Data -----

  datatype Choice = NoChoices | NoMessage | Choice(message: Message, finishReason: string)

  /** What the base class's `_query` did. */
  datatype Reply =
    | ServerRaised
    | Reply(chainId: string, choice: Choice, chainStatus: string)

  datatype Pending = Pending(
    chainId: string,
    request: seq<Message>,
    response: Message,
    resetReason: Option<string>,
    finishReason: string,
    chainStatus: string)

  datatype Client = Client(
    chainId: Option<string>,
    lastRequest: Option<seq<Message>>,
    lastResponse: Option<Message>,
    appendSafe: bool,
    recoveryId: Option<string>,
    pending: Option<Pending>,
    resetReason: Option<string>)

  const START := Client(None, None, None, false, None, None, None)

  /** The chain fields of a request as sent. */
  datatype Outgoing = Outgoing(chainId: Option<string>, chainAppendStart: Option<nat>)

  datatype TranscriptError =
    | MissingRequest
    | MissingResponse
    | HistoryDidNotGrow
    | PrefixChanged(index: nat)
    | ResponseChanged

  datatype QueryError =
    | NotAppendOnly(cause: TranscriptError)
    | RequestFailed
    | NoChainId
    | EmptyChoices
    | MissingMessage
    | MissingFinishReason
    | MissingChainStatus
    | NoPendingState
    | BaseRaised(name: string)

  // ----- `_query` -----

  /** `self._recovery_chain_id or self._chain_id` */
  function RequestChainId(s: Client): Option<string> {
    if s.recoveryId.Some? && s.recoveryId.value != "" then s.recoveryId else s.chainId
  }

  /** The first index below `n` at which the two transcripts differ. */
  function FirstDifference(previous: seq<Message>, current: seq<Message>, n: nat): (r: Option<nat>)
    requires n <= |previous| && n <= |current|
    ensures r.None? <==> previous[..n] == current[..n]
    ensures r.Some? ==> r.value < n && previous[r.value] != current[r.value]
    ensures r.Some? ==> previous[..r.value] == current[..r.value]
  {
    if n == 0 then None
    else
      var earlier := FirstDifference(previous, current, n - 1);
      assert previous[..n] == previous[..n - 1] + [previous[n - 1]];
      assert current[..n] == current[..n - 1] + [current[n - 1]];
      if earlier.Some? then earlier
      else if previous[n - 1] != current[n - 1] then Some(n - 1)
      else None
  }

  lemma {:induction false} FirstDifferenceIs(previous: seq<Message>, current: seq<Message>, n: nat, index: nat)
    requires index < n <= |previous| && n <= |current|
    requires previous[..index] == current[..index] && previous[index] != current[index]
    ensures FirstDifference(previous, current, n) == Some(index)
  {
    if index < n - 1 {
      FirstDifferenceIs(previous, current, n - 1, index);
    }
  }

  function ContinuationError(s: Client, messages: seq<Message>): Option<TranscriptError> {
    if s.lastRequest.None? then Some(MissingRequest)
    else if s.lastResponse.None? then Some(MissingResponse)
    else
      var current := ChainMessages(messages);
      var previous := s.lastRequest.value;
      if |current| <= |previous| then Some(HistoryDidNotGrow)
      else
        match FirstDifference(previous, current, |previous|)
        case Some(index) => Some(PrefixChanged(index))
        case None =>
          if current[|previous|] != s.lastResponse.value then Some(ResponseChanged) else None
  }

  function ChainAppendStart(s: Client): Option<nat> {
    if RequestChainId(s).Some? && s.resetReason.None? && s.appendSafe && s.lastRequest.Some?
    then Some(|s.lastRequest.value| + 1)
    else None
  }

  /** The transcript check, made unless the chain is new or being recovered. */
  function CheckTranscript(s: Client, messages: seq<Message>): Option<TranscriptError> {
    if RequestChainId(s).Some? && s.resetReason.None? then ContinuationError(s, messages) else None
  }

  /** Reading the server's answer, in the order `_query` does. */
  function ReadReply(s: Client, messages: seq<Message>, reply: Reply): Result<Pending, QueryError> {
    if reply.ServerRaised? then Failure(RequestFailed)
    else if Strip(reply.chainId) == "" then Failure(NoChainId)
    else
      match reply.choice
      case NoChoices => Failure(EmptyChoices)
      case NoMessage => Failure(MissingMessage)
      case Choice(message, finishReason) =>
        if Strip(finishReason) == "" then Failure(MissingFinishReason)
        else if Strip(reply.chainStatus) == "" then Failure(MissingChainStatus)
        else Success(Pending(Strip(reply.chainId), ChainMessages(messages), ChainMessage(message),
                             s.resetReason, Strip(finishReason), Strip(reply.chainStatus)))
  }

  /** `_query`: the new state, what went out, and an error if it raised. */
  function Attempt(s: Client, messages: seq<Message>, reply: Reply): (Client, Option<Outgoing>, Option<QueryError>) {
    var cleared := s.(pending := None);
    match CheckTranscript(s, messages)
    case Some(cause) => (cleared, None, Some(NotAppendOnly(cause)))
    case None =>
      var sent := Some(Outgoing(RequestChainId(s), ChainAppendStart(s)));
      match ReadReply(s, messages, reply)
      case Failure(e) => (cleared, sent, Some(e))
      case Success(p) => (s.(pending := Some(p)), sent, None)
  }

  // ----- `query` -----

  datatype Try = Try(messages: seq<Message>, reply: Reply)

  /** How the base class's `query` ended after its attempts. */
  datatype Ending = Returned | Raised(name: string)

  function Attempts(s: Client, tries: seq<Try>): Client
    decreases |tries|
  {
    if tries == [] then s
    else Attempts(Attempt(s, tries[0].messages, tries[0].reply).0, tries[1..])
  }

  /** The `except` clause of `query`. */
  function Recover(s: Client, name: string): Client {
    match s.pending
    case None => s
    case Some(p) => s.(recoveryId := Some(p.chainId), resetReason := Some(name), pending := None)
  }

  function Commit(s: Client, p: Pending): Client {
    var invalidated := p.chainStatus == "invalidated";
    Client(if invalidated then None else Some(p.chainId),
           Some(p.request),
           Some(p.response),
           !invalidated && p.finishReason in {"stop", "tool_calls"},
           None, None, None)
  }

  /** `query`: the new state, and the reset reason of the reply or the exception. */
  function Query(s: Client, tries: seq<Try>, ending: Ending): (Client, Result<Option<string>, QueryError>) {
    var tried := Attempts(s, tries);
    match ending
    case Raised(name) => (Recover(tried, name), Failure(BaseRaised(name)))
    case Returned =>
      match tried.pending
      case None => (tried, Failure(NoPendingState))
      case Some(p) => (Commit(tried, p), Success(p.resetReason))
  }

  // ----- Invariant -----

  predicate Committed(s: Client) {
    && (s.recoveryId.Some? <==> s.resetReason.Some?)
    && (s.recoveryId.Some? ==> s.recoveryId.value != "")
    && (s.lastRequest.Some? <==> s.lastResponse.Some?)
    && (s.chainId.Some? ==> s.lastRequest.Some?)
    && (s.appendSafe ==> s.chainId.Some?)
  }

  /** Between queries nothing is pending. */
  predicate AtRest(s: Client) {
    Committed(s) && s.pending.None?
  }

  /** The next request starts a chain epoch: there is no chain to continue, or the
      chain is being recovered. */
  predicate StartsEpoch(s: Client) {
    s.chainId.None? || s.resetReason.Some?
  }

  /** The committed transcript with the committed reply after it. */
  function History(s: Client): seq<Message>
    requires Committed(s) && s.lastRequest.Some?
  {
    s.lastRequest.value + [s.lastResponse.value]
  }

  predicate InQuery(s: Client) {
    && Committed(s)
    && (s.pending.Some? ==>
          && s.pending.value.chainId != ""
          && s.pending.value.resetReason == s.resetReason
          && (StartsEpoch(s) || History(s) <= s.pending.value.request))
  }

  lemma {:induction false} ContinuationMeansPrefix(s: Client, messages: seq<Message>)
    requires Committed(s) && s.lastRequest.Some?
    ensures ContinuationError(s, messages).None? <==> History(s) <= ChainMessages(messages)
  {
    var current := ChainMessages(messages);
    var n := |s.lastRequest.value|;
    if n < |current| {
      assert current[..n + 1] == current[..n] + [current[n]];
      assert s.lastRequest.value[..n] == s.lastRequest.value;
      assert History(s)[n] == s.lastResponse.value;
      assert History(s)[..n] == s.lastRequest.value;
    }
  }

  lemma {:induction false} AttemptKeeps(s: Client, t: Try)
    requires InQuery(s)
    ensures var r := Attempt(s, t.messages, t.reply).0;
            InQuery(r) && r.(pending := None) == s.(pending := None)
  {
    if !StartsEpoch(s) {
      ContinuationMeansPrefix(s, t.messages);
    }
  }

  lemma {:induction false} AttemptsKeep(s: Client, tries: seq<Try>)
    requires InQuery(s)
    ensures var r := Attempts(s, tries);
            InQuery(r) && r.(pending := None) == s.(pending := None)
    decreases |tries|
  {
    if tries != [] {
      AttemptKeeps(s, tries[0]);
      AttemptsKeep(Attempt(s, tries[0].messages, tries[0].reply).0, tries[1..]);
    }
  }

  /** Every query, however it ends, leaves nothing pending, and keeps the recovery
      id and the reset reason set or cleared together. */
  lemma {:induction false} QueryComesToRest(s: Client, tries: seq<Try>, ending: Ending)
    requires AtRest(s)
    ensures AtRest(Query(s, tries, ending).0)
  {
    AttemptsKeep(s, tries);
  }

  // ----- What goes out -----

  /** The server may skip the first `k` messages of a request only because they are
      the transcript it has already seen: a request carries `chain_append_start = k`
      exactly when it continues a healthy, append-safe chain, and then its first `k`
      projected messages are the last committed request and the last reply. */
  lemma {:induction false} AppendStartIsLicensed(s: Client, messages: seq<Message>, reply: Reply)
    requires InQuery(s) && Attempt(s, messages, reply).1.Some?
    ensures var sent := Attempt(s, messages, reply).1.value;
            && (sent.chainAppendStart.Some? <==> !StartsEpoch(s) && s.appendSafe)
            && (sent.chainAppendStart.Some? ==>
                  && sent.chainId == s.chainId
                  && s.recoveryId.None?
                  && var k := sent.chainAppendStart.value;
                     0 < k <= |messages| && ChainMessages(messages[..k]) == History(s))
  {
    if !StartsEpoch(s) {
      ContinuationMeansPrefix(s, messages);
      var k := |s.lastRequest.value| + 1;
      assert ChainMessages(messages[..k]) == ChainMessages(messages)[..k];
    }
  }

  /** Nothing goes out on a chain whose transcript was rewritten. */
  lemma {:induction false} RewrittenTranscriptIsRefused(s: Client, messages: seq<Message>, reply: Reply)
    requires InQuery(s) && !StartsEpoch(s)
    ensures Attempt(s, messages, reply).1.None? <==> !(History(s) <= ChainMessages(messages))
    ensures Attempt(s, messages, reply).1.None? ==>
              Attempt(s, messages, reply).0.pending.None? && Attempt(s, messages, reply).2.Some?
  {
    ContinuationMeansPrefix(s, messages);
  }

  /** A recovering request names the chain to recover and never appends to it. */
  lemma {:induction false} RecoveringRequest(s: Client, messages: seq<Message>, reply: Reply)
    requires InQuery(s) && s.resetReason.Some?
    ensures Attempt(s, messages, reply).1 == Some(Outgoing(s.recoveryId, None))
  {
  }

  // ----- What a successful query commits -----

  /** The server's answer was complete: an id, a message, a reason and a status, none blank. */
  predicate Answered(reply: Reply) {
    && reply.Reply? && Strip(reply.chainId) != "" && reply.choice.Choice?
    && Strip(reply.choice.finishReason) != "" && Strip(reply.chainStatus) != ""
  }

  /** The reply that ends a chain, and one that leaves it open but may not be appended to. */
  predicate Invalidates(reply: Reply) {
    reply.Reply? && Strip(reply.chainStatus) == "invalidated"
  }

  predicate EndsCleanly(reply: Reply) {
    && reply.Reply? && reply.choice.Choice?
    && (Strip(reply.choice.finishReason) == "stop" || Strip(reply.choice.finishReason) == "tool_calls")
  }

  lemma {:induction false} AttemptsSplit(s: Client, tries: seq<Try>)
    requires tries != []
    ensures var n := |tries| - 1;
            Attempts(s, tries) == Attempt(Attempts(s, tries[..n]), tries[n].messages, tries[n].reply).0
    decreases |tries|
  {
    hide Attempt;
    var n := |tries| - 1;
    if n > 0 {
      assert tries[..n][1..] == tries[1..][..n - 1];
      AttemptsSplit(Attempt(s, tries[0].messages, tries[0].reply).0, tries[1..]);
    }
  }

  /** An attempt leaves a response pending exactly if its transcript is admissible and the
      answer complete. */
  lemma {:induction false} AttemptAnswered(s: Client, messages: seq<Message>, reply: Reply)
    requires InQuery(s)
    ensures var p := Attempt(s, messages, reply).0.pending;
            && (p.Some? <==> Answered(reply) && (StartsEpoch(s) || History(s) <= ChainMessages(messages)))
            && (p.Some? ==>
                  && p.value.chainId == Strip(reply.chainId) && p.value.request == ChainMessages(messages)
                  && p.value.response == ChainMessage(reply.choice.message)
                  && p.value.finishReason == Strip(reply.choice.finishReason)
                  && p.value.chainStatus == Strip(reply.chainStatus))
  {
    hide Strip, ChainMessage, ChainMessages, History, ContinuationError;
    if !StartsEpoch(s) {
      ContinuationMeansPrefix(s, messages);
    }
  }

  /** An answer that is not complete is refused for the first thing it lacks. */
  lemma {:induction false} IncompleteAnswer(s: Client, messages: seq<Message>, reply: Reply)
    requires Attempt(s, messages, reply).1.Some?
    ensures var error := Attempt(s, messages, reply).2;
            && (error == None <==> Answered(reply))
            && (error == Some(RequestFailed) <==> reply == ServerRaised)
            && (reply.Reply? ==>
                  && (error == Some(NoChainId) <==> Strip(reply.chainId) == "")
                  && (Strip(reply.chainId) != "" ==>
                        && (error == Some(EmptyChoices) <==> reply.choice == NoChoices)
                        && (error == Some(MissingMessage) <==> reply.choice == NoMessage)
                        && (reply.choice.Choice? ==>
                              && (error == Some(MissingFinishReason) <==> Strip(reply.choice.finishReason) == "")
                              && (error == Some(MissingChainStatus) <==>
                                  Strip(reply.choice.finishReason) != "" && Strip(reply.chainStatus) == ""))))
  {
    hide Strip, ChainMessage, ChainMessages, ContinuationError;
  }

  /** When the base class returns, the query succeeds exactly if its last attempt was admissible
      and answered completely. */
  lemma {:induction false} QuerySucceedsIff(s: Client, tries: seq<Try>)
    requires AtRest(s)
    ensures Query(s, tries, Returned).1.Success? <==>
            && tries != []
            && var last := tries[|tries| - 1];
               Answered(last.reply) && (StartsEpoch(s) || History(s) <= ChainMessages(last.messages))
  {
    hide Attempt, Answered, ChainMessages;
    if tries != [] {
      var n := |tries| - 1;
      AttemptsKeep(s, tries[..n]);
      AttemptsSplit(s, tries);
      AttemptAnswered(Attempts(s, tries[..n]), tries[n].messages, tries[n].reply);
    }
  }

  /** What it then commits: the transcript and the reply of that attempt; its chain, unless the
      server has invalidated it; and that the reply may be appended to, exactly if the chain
      lives on and the reply was not cut off.  Any recovery is over. */
  lemma {:induction false} SuccessCommits(s: Client, tries: seq<Try>)
    requires AtRest(s) && Query(s, tries, Returned).1.Success?
    ensures tries != [] && Answered(tries[|tries| - 1].reply)
    ensures var t, last := Query(s, tries, Returned).0, tries[|tries| - 1];
            && t.lastRequest == Some(ChainMessages(last.messages))
            && t.lastResponse == Some(ChainMessage(last.reply.choice.message))
            && t.chainId == (if Invalidates(last.reply) then None else Some(Strip(last.reply.chainId)))
            && (t.appendSafe <==> !Invalidates(last.reply) && EndsCleanly(last.reply))
            && t.recoveryId == None && t.resetReason == None && t.pending == None
  {
    hide Attempt, ChainMessages, ChainMessage, Strip;
    QuerySucceedsIff(s, tries);
    var n := |tries| - 1;
    AttemptsKeep(s, tries[..n]);
    AttemptsSplit(s, tries);
    AttemptAnswered(Attempts(s, tries[..n]), tries[n].messages, tries[n].reply);
  }

  /** After a successful query, a further request of a transcript that continues it goes out on
      its chain, and with `chain_append_start` exactly if the reply ended cleanly. */
  lemma {:induction false} AppendFollowsCleanReply(s: Client, tries: seq<Try>, messages: seq<Message>, reply: Reply)
    requires AtRest(s) && Query(s, tries, Returned).1.Success?
    ensures tries != [] && Answered(tries[|tries| - 1].reply)
    ensures var last := tries[|tries| - 1];
            var sent := Attempt(Query(s, tries, Returned).0, messages, reply).1;
            var history := ChainMessages(last.messages) + [ChainMessage(last.reply.choice.message)];
            && (sent.Some? <==> Invalidates(last.reply) || history <= ChainMessages(messages))
            && (sent.Some? ==>
                  && sent.value.chainId ==
                     (if Invalidates(last.reply) then None else Some(Strip(last.reply.chainId)))
                  && sent.value.chainAppendStart ==
                     if !Invalidates(last.reply) && EndsCleanly(last.reply) then Some(|last.messages| + 1) else None)
  {
    hide ChainMessage, Strip, ReadReply, ContinuationError;
    SuccessCommits(s, tries);
    QueryComesToRest(s, tries, Returned);
    var t := Query(s, tries, Returned).0;
    hide Query, Invalidates, EndsCleanly, Answered;
    if !StartsEpoch(t) {
      ContinuationMeansPrefix(t, messages);
    }
  }

  // ----- What the server makes of it -----

  datatype AppendError = Multimodal | NothingNew | NotAfterAssistant | TemplateFailed | UnstableSuffix | EmptySuffix

  /** The chat template: the prompt for some messages, with or without a generation prompt,
      or nothing when rendering raises. */
  type Template = (seq<Message>, bool) -> Option<string>

  const CONTEXT_MESSAGE: Message := map["role" := Text("user"), "content" := Text("chain append context")]

  function Role(message: Message): Option<string> {
    if "role" in message && message["role"].Text? then Some(message["role"].text) else None
  }

  predicate IsTextPart(part: Value) {
    part.Dict? && "type" in part.entries && part.entries["type"] == Text("text")
  }

  predicate HasMultimodal(messages: seq<Message>) {
    exists i | 0 <= i < |messages| ::
      && "content" in messages[i] && messages[i]["content"].List?
      && exists j | 0 <= j < |messages[i]["content"].items| :: !IsTextPart(messages[i]["content"].items[j])
  }

  /** `_chat_request_append_prompt`: the text of the messages from `start` on, as what they
      add to the rendering of the reply before them. */
  function AppendPrompt(template: Template, start: nat, messages: seq<Message>): Result<string, AppendError>
    requires start >= 1
  {
    if HasMultimodal(messages) then Failure(Multimodal)
    else if start >= |messages| then Failure(NothingNew)
    else if Role(messages[start - 1]) != Some("assistant") then Failure(NotAfterAssistant)
    else
      var context := [CONTEXT_MESSAGE, messages[start - 1]];
      var prefix, combined := template(context, false), template(context + messages[start..], true);
      if prefix.None? || combined.None? then Failure(TemplateFailed)
      else if !(prefix.value <= combined.value) then Failure(UnstableSuffix)
      else if combined.value == prefix.value then Failure(EmptySuffix)
      else Success(combined.value[|prefix.value|..])
  }

  /** A message has other than text content exactly if its content is a list with a part that
      is not of type "text". */
  lemma {:induction false} MultimodalIff(messages: seq<Message>)
    ensures HasMultimodal(messages) <==>
            exists message: Message, part: Value ::
              message in messages && HasPart(message, part) && Follow(part, [Under("type")]) != Some(Text("text"))
  {
    if message: Message, part: Value :| message in messages && HasPart(message, part) && Follow(part, [Under("type")]) != Some(Text("text")) {
      var i :| 0 <= i < |messages| && messages[i] == message;
      var j :| 0 <= j < |message["content"].items| && message["content"].items[j] == part;
      TypeOf(part);
      assert !IsTextPart(messages[i]["content"].items[j]);
    }
    if HasMultimodal(messages) {
      var i :| 0 <= i < |messages| && "content" in messages[i] && messages[i]["content"].List?
               && exists j | 0 <= j < |messages[i]["content"].items| :: !IsTextPart(messages[i]["content"].items[j]);
      var j :| 0 <= j < |messages[i]["content"].items| && !IsTextPart(messages[i]["content"].items[j]);
      TypeOf(messages[i]["content"].items[j]);
      assert messages[i] in messages && HasPart(messages[i], messages[i]["content"].items[j]);
    }
  }

  ghost predicate HasPart(message: Message, part: Value) {
    "content" in message && message["content"].List? && part in message["content"].items
  }

  lemma {:induction false} TypeOf(part: Value)
    ensures IsTextPart(part) <==> Follow(part, [Under("type")]) == Some(Text("text"))
  {
    assert [Under("type")][1..] == [];
  }

  /** Each refusal, and that there is no other. */
  lemma {:induction false} AppendRefused(template: Template, start: nat, messages: seq<Message>)
    requires start >= 1
    ensures var outcome := AppendPrompt(template, start, messages);
            && (outcome == Failure(Multimodal) <==> HasMultimodal(messages))
            && (!HasMultimodal(messages) ==>
                  && (outcome == Failure(NothingNew) <==> |messages| <= start)
                  && (|messages| > start ==>
                        var reply := messages[start - 1];
                        var context := [map["role" := Text("user"), "content" := Text("chain append context")], reply];
                        var prefix, whole := template(context, false), template(context + messages[start..], true);
                        && (outcome == Failure(NotAfterAssistant) <==> Role(reply) != Some("assistant"))
                        && (Role(reply) == Some("assistant") ==>
                              && (outcome == Failure(TemplateFailed) <==> prefix == None || whole == None)
                              && (prefix.Some? && whole.Some? ==>
                                    && (outcome == Failure(EmptySuffix) <==> whole == prefix)
                                    && (outcome == Failure(UnstableSuffix) <==> !(prefix.value <= whole.value))
                                    && (outcome.Success? ==> prefix.value + outcome.value == whole.value)))))
  {
    hide HasMultimodal, Role;
  }

  /** The template renders the new messages as a proper extension of the reply. */
  predicate TemplateExtends(template: Template, reply: Message, added: seq<Message>) {
    var prefix := template([CONTEXT_MESSAGE, reply], false);
    var combined := template([CONTEXT_MESSAGE, reply] + added, true);
    prefix.Some? && combined.Some? && prefix.value < combined.value
  }

  /** What the server appends completes the rendering of the reply to that of the reply and
      the new messages. */
  lemma {:induction false} AppendPromptCompletes(template: Template, start: nat, messages: seq<Message>)
    requires start >= 1 && AppendPrompt(template, start, messages).Success?
    ensures start < |messages|
    ensures var context := [CONTEXT_MESSAGE, messages[start - 1]];
            && template(context, false).Some?
            && template(context + messages[start..], true) ==
               Some(template(context, false).value + AppendPrompt(template, start, messages).value)
  {
    hide HasMultimodal, Role;
    var context := [CONTEXT_MESSAGE, messages[start - 1]];
    var prefix, combined := template(context, false).value, template(context + messages[start..], true).value;
    assert combined == prefix + combined[|prefix|..];
  }

  lemma {:induction false} ProjectionKeepsRole(message: Message)
    ensures Role(ChainMessage(message)) == Role(message)
  {
    assert "role" in CHAIN_KEYS && "role" !in DROPPED_KEYS;
    if "role" in message {
      PlainValueKeepsNull(message["role"]);
      assert Kept(message, "role") <==> message["role"] != Null;
      assert PlainValue(message["role"]).Text? <==> message["role"].Text?;
    }
  }

  /** The client's check admits a transcript that merely repeats the history, and it does not
      look at roles.  So, apart from multimodal content and what the chat template makes of
      the messages, the server accepts an append request if and only if the agent has added
      a message and the committed reply is an assistant's. */
  lemma {:induction false} AppendAcceptedIff(s: Client, messages: seq<Message>, reply: Reply, template: Template)
    requires InQuery(s) && Attempt(s, messages, reply).1.Some?
    requires Attempt(s, messages, reply).1.value.chainAppendStart.Some?
    ensures var k := Attempt(s, messages, reply).1.value.chainAppendStart.value;
            && 1 <= k <= |messages| && s.lastResponse.Some?
            && (AppendPrompt(template, k, messages).Success? <==>
                  && |messages| > |History(s)|
                  && Role(s.lastResponse.value) == Some("assistant")
                  && !HasMultimodal(messages)
                  && TemplateExtends(template, messages[k - 1], messages[k..]))
  {
    AppendStartIsLicensed(s, messages, reply);
    var k := Attempt(s, messages, reply).1.value.chainAppendStart.value;
    assert |ChainMessages(messages[..k])| == k == |History(s)|;
    assert ChainMessages(messages[..k])[k - 1] == ChainMessage(messages[k - 1]) == s.lastResponse.value;
    ProjectionKeepsRole(messages[k - 1]);
    hide ChainMessage, Role, HasMultimodal, Attempt;
  }

  // ----- Failure and recovery -----

  /** A query that fails before a response is pending changes nothing. */
  lemma {:induction false} FailureBeforeResponse(s: Client, tries: seq<Try>, ending: Ending)
    requires AtRest(s) && Attempts(s, tries).pending.None?
    ensures Query(s, tries, ending).0 == s && Query(s, tries, ending).1.Failure?
  {
    AttemptsKeep(s, tries);
  }

  /** A query that fails afterwards keeps the committed transcript and arranges for
      the chain the server has just extended to be recovered. */
  lemma {:induction false} FailureAfterResponse(s: Client, tries: seq<Try>, name: string)
    requires AtRest(s) && Attempts(s, tries).pending.Some?
    ensures var p := Attempts(s, tries).pending.value;
            Query(s, tries, Raised(name)).0 == s.(recoveryId := Some(p.chainId), resetReason := Some(name))
  {
    AttemptsKeep(s, tries);
  }

  /** The first success after a failure reports why the chain was reset, and ends
      the recovery. */
  lemma {:induction false} RecoveryIsReported(s: Client, tries: seq<Try>)
    requires AtRest(s) && Query(s, tries, Returned).1.Success?
    ensures Query(s, tries, Returned).1 == Success(s.resetReason)
    ensures Query(s, tries, Returned).0.resetReason == None
  {
    AttemptsKeep(s, tries);
  }

  // ----- Whole runs -----

  datatype Step = Step(tries: seq<Try>, ending: Ending)

  datatype Commitment = Commitment(request: seq<Message>, response: Message)

  /** The client together with what it has committed in the current chain epoch. */
  datatype Session = Session(client: Client, epoch: seq<Commitment>)

  function Advance(x: Session, step: Step): Session {
    var (client, outcome) := Query(x.client, step.tries, step.ending);
    if outcome.Failure? || client.lastRequest.None? || client.lastResponse.None? then x.(client := client)
    else
      var entry := Commitment(client.lastRequest.value, client.lastResponse.value);
      Session(client, if StartsEpoch(x.client) then [entry] else x.epoch + [entry])
  }

  function Play(x: Session, steps: seq<Step>): Session
    decreases |steps|
  {
    if steps == [] then x else Play(Advance(x, steps[0]), steps[1..])
  }

  /** Each committed transcript continues the one before it and its reply. */
  predicate Growing(epoch: seq<Commitment>) {
    forall i | 0 < i < |epoch| :: epoch[i - 1].request + [epoch[i - 1].response] <= epoch[i].request
  }

  predicate SessionSound(x: Session) {
    && AtRest(x.client)
    && Growing(x.epoch)
    && (x.client.lastRequest.Some? ==>
          x.epoch != [] && x.epoch[|x.epoch| - 1] == Commitment(x.client.lastRequest.value, x.client.lastResponse.value))
  }

  lemma {:induction false} AdvanceKeeps(x: Session, step: Step)
    requires SessionSound(x)
    ensures SessionSound(Advance(x, step))
  {
    hide Attempt, Attempts;
    AttemptsKeep(x.client, step.tries);
    QueryComesToRest(x.client, step.tries, step.ending);
  }

  lemma {:induction false} PlayKeeps(x: Session, steps: seq<Step>)
    requires SessionSound(x)
    ensures SessionSound(Play(x, steps))
    decreases |steps|
  {
    if steps != [] {
      AdvanceKeeps(x, steps[0]);
      PlayKeeps(Advance(x, steps[0]), steps[1..]);
    }
  }

  lemma {:induction false} GrowingIsPrefixOrder(epoch: seq<Commitment>, i: nat, j: nat)
    requires Growing(epoch) && i < j < |epoch|
    ensures epoch[i].request + [epoch[i].response] <= epoch[j].request
    ensures |epoch[i].request| < |epoch[j].request|
    decreases j
  {
    if i + 1 < j {
      GrowingIsPrefixOrder(epoch, i, j - 1);
    }
  }

  /** After any number of queries against any server, the transcripts committed since
      the last chain reset form a strictly growing prefix order: each one begins with
      every earlier one followed by the reply to it. */
  lemma {:induction false} EpochIsPrefixOrder(steps: seq<Step>, i: nat, j: nat)
    requires i < j < |Play(Session(START, []), steps).epoch|
    ensures var epoch := Play(Session(START, []), steps).epoch;
            && epoch[i].request + [epoch[i].response] <= epoch[j].request
            && |epoch[i].request| < |epoch[j].request|
  {
    PlayKeeps(Session(START, []), steps);
    GrowingIsPrefixOrder(Play(Session(START, []), steps).epoch, i, j);
  }
}
