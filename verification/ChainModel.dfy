/** `SparseVLLMLitellmModel` with the chain cache enabled: the fields, and the two
    methods that update them, proved against the client state machine. */
module ChainModel {
  import opened ChainClient
  import opened ChatValues
  import opened Strings
  import opened Wrappers

  lemma {:induction false} CommittedFields(s: Client, tries: seq<Try>, ending: Ending)
    requires AtRest(s)
    ensures ending.Returned? && Query(s, tries, ending).1.Success? ==>
              && tries != [] && Answered(tries[|tries| - 1].reply)
              && var t, last := Query(s, tries, ending).0, tries[|tries| - 1];
                 && t.lastRequest == Some(ChainMessages(last.messages))
                 && t.lastResponse == Some(ChainMessage(last.reply.choice.message))
                 && t.chainId == (if Invalidates(last.reply) then None else Some(Strip(last.reply.chainId)))
                 && (t.appendSafe <==> !Invalidates(last.reply) && EndsCleanly(last.reply))
  {
    hide *;
    if ending.Returned? && Query(s, tries, ending).1.Success? {
      SuccessCommits(s, tries);
    }
  }

  class SparseVLLMLitellmModel {
    var chainId: Option<string>
    var lastRequestMessages: Option<seq<Message>>
    var lastResponseMessage: Option<Message>
    var lastResponseAppendSafe: bool
    var recoveryChainId: Option<string>
    var pendingChainState: Option<Pending>
    var forceNewChainReason: Option<string>

    ghost function View(): Client
      reads this
    {
      Client(chainId, lastRequestMessages, lastResponseMessage, lastResponseAppendSafe,
             recoveryChainId, pendingChainState, forceNewChainReason)
    }

    constructor ()
      ensures View() == START
    {
      chainId := None;
      lastRequestMessages := None;
      lastResponseMessage := None;
      lastResponseAppendSafe := false;
      recoveryChainId := None;
      pendingChainState := None;
      forceNewChainReason := None;
    }

    /** `_continuation_error`, with its walk over the two transcripts. */
    method FindContinuationError(messages: seq<Message>) returns (error: Option<TranscriptError>)
      ensures error == ContinuationError(View(), messages)
    {
      if lastRequestMessages.None? {
        return Some(MissingRequest);
      }
      if lastResponseMessage.None? {
        return Some(MissingResponse);
      }
      var current := ChainMessages(messages);
      var previous := lastRequestMessages.value;
      if |current| <= |previous| {
        return Some(HistoryDidNotGrow);
      }
      var index := 0;
      while index < |previous|
        invariant 0 <= index <= |previous|
        invariant previous[..index] == current[..index]
      {
        if previous[index] != current[index] {
          FirstDifferenceIs(previous, current, |previous|, index);
          return Some(PrefixChanged(index));
        }
        index := index + 1;
      }
      if current[|previous|] != lastResponseMessage.value {
        return Some(ResponseChanged);
      }
      return None;
    }

    /** `_query`: one attempt.  `sent` is what went to the server, if anything did. */
    method SendAttempt(messages: seq<Message>, reply: Reply)
      returns (sent: Option<Outgoing>, error: Option<QueryError>)
      modifies this`pendingChainState
      ensures (View(), sent, error) == Attempt(old(View()), messages, reply)
    {
      pendingChainState := None;
      var requestChainId := if recoveryChainId.Some? && recoveryChainId.value != "" then recoveryChainId else chainId;
      var recovering := forceNewChainReason.Some?;
      if requestChainId.Some? && !recovering {
        var cause := FindContinuationError(messages);
        if cause.Some? {
          return None, Some(NotAppendOnly(cause.value));
        }
      }
      var appendStart := None;
      if requestChainId.Some? && !recovering && lastResponseAppendSafe && lastRequestMessages.Some? {
        appendStart := Some(|lastRequestMessages.value| + 1);
      }
      sent := Some(Outgoing(requestChainId, appendStart));
      if reply.ServerRaised? {
        return sent, Some(RequestFailed);
      }
      var id := Strip(reply.chainId);
      if id == "" {
        return sent, Some(NoChainId);
      }
      var request := ChainMessages(messages);
      match reply.choice {
        case NoChoices => return sent, Some(EmptyChoices);
        case NoMessage => return sent, Some(MissingMessage);
        case Choice(message, finishReason) =>
          var response := ChainMessage(message);
          if Strip(finishReason) == "" {
            return sent, Some(MissingFinishReason);
          }
          if Strip(reply.chainStatus) == "" {
            return sent, Some(MissingChainStatus);
          }
          pendingChainState := Some(Pending(id, request, response, forceNewChainReason,
                                            Strip(finishReason), Strip(reply.chainStatus)));
      }
      error := None;
    }

    /** The base class's `query`, up to its ending: attempts one after another. */
    method MakeAttempts(tries: seq<Try>)
      modifies this`pendingChainState
      ensures View() == Attempts(old(View()), tries)
    {
      var i := 0;
      while i < |tries|
        invariant 0 <= i <= |tries|
        invariant Attempts(View(), tries[i..]) == Attempts(old(View()), tries)
      {
        assert tries[i..][0] == tries[i] && tries[i..][1..] == tries[i + 1..];
        var _, _ := SendAttempt(tries[i].messages, tries[i].reply);
        i := i + 1;
      }
      assert tries[i..] == [];
    }

    /** `query`.  A session that was sound before is sound afterwards, so the
        committed transcripts of a chain epoch keep growing. */
    method RunQuery(tries: seq<Try>, ending: Ending, ghost before: Session)
      returns (outcome: Result<Option<string>, QueryError>, ghost after: Session)
      requires SessionSound(before) && before.client == View()
      modifies this
      ensures (View(), outcome) == Query(old(View()), tries, ending)
      ensures SessionSound(after) && after.client == View() && after == Advance(before, Step(tries, ending))
      ensures outcome.Success? ==>
                && tries != [] && Answered(tries[|tries| - 1].reply)
                && var last := tries[|tries| - 1];
                   && lastRequestMessages == Some(ChainMessages(last.messages))
                   && lastResponseMessage == Some(ChainMessage(last.reply.choice.message))
                   && chainId == (if Invalidates(last.reply) then None else Some(Strip(last.reply.chainId)))
                   && (lastResponseAppendSafe <==> !Invalidates(last.reply) && EndsCleanly(last.reply))
    {
      MakeAttempts(tries);
      after := Advance(before, Step(tries, ending));
      AdvanceKeeps(before, Step(tries, ending));
      CommittedFields(before.client, tries, ending);
      hide Answered, Invalidates, EndsCleanly, ChainMessages, ChainMessage, Strip, SessionSound, Advance;
      if ending.Raised? {
        if pendingChainState.Some? {
          recoveryChainId := Some(pendingChainState.value.chainId);
          forceNewChainReason := Some(ending.name);
        }
        pendingChainState := None;
        return Failure(BaseRaised(ending.name)), after;
      }
      if pendingChainState.None? {
        return Failure(NoPendingState), after;
      }
      var pending := pendingChainState.value;
      chainId := Some(pending.chainId);
      lastRequestMessages := Some(pending.request);
      lastResponseMessage := Some(pending.response);
      var invalidated := pending.chainStatus == "invalidated";
      lastResponseAppendSafe := !invalidated && pending.finishReason in {"stop", "tool_calls"};
      if invalidated {
        chainId := None;
      }
      pendingChainState := None;
      recoveryChainId := None;
      forceNewChainReason := None;
      return Success(pending.resetReason), after;
    }
  }
}
