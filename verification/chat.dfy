/**
 One chat turn: decide which interview the turn belongs to, format the
 conversation for the language model, and on a reply persist the extended
 transcript with fresh scores.
 */
module Chat {
  import opened Wrappers
  import opened Interview
  import opened Evaluator
  import opened Storage
  import opened Comparator

  const FallbackReply :=
    "I apologize, but I'm having trouble processing your response. Could you please try again?"

  /** Prefix of a freshly minted interview id; the rest is the request's wall-clock time. */
  const IdPrefix := "interview_"

  // ---------------------------------------------------------------------------
  // Formatting for the language model
  // ---------------------------------------------------------------------------

  /** The model's two-role vocabulary: "assistant" stays, every other role becomes "user". */
  function NormaliseRole(m: ChatMessage): (r: ChatMessage)
    ensures r.content == m.content
    ensures r.role == AssistantRole <==> m.role == AssistantRole
    ensures r.role == AssistantRole || r.role == UserRole
  {
    ChatMessage(if m.role == AssistantRole then AssistantRole else UserRole, m.content)
  }

  /** The system prompt, then the history with normalised roles, in order. */
  function FormatForLlama(systemPrompt: string, messages: seq<ChatMessage>): (r: seq<ChatMessage>)
    ensures |r| == |messages| + 1
    ensures r[0] == ChatMessage(SystemRole, systemPrompt)
    ensures forall i :: 0 <= i < |messages| ==>
              && r[i + 1].content == messages[i].content
              && (r[i + 1].role == AssistantRole <==> messages[i].role == AssistantRole)
              && (r[i + 1].role == AssistantRole || r[i + 1].role == UserRole)
  {
    [ChatMessage(SystemRole, systemPrompt)] + seq(|messages|, i requires 0 <= i < |messages| => NormaliseRole(messages[i]))
  }

  /** Formatting an already formatted history again changes nothing after the system prompt. */
  lemma FormatIdempotent(systemPrompt: string, messages: seq<ChatMessage>)
    ensures FormatForLlama(systemPrompt, FormatForLlama(systemPrompt, messages)[1..])
         == FormatForLlama(systemPrompt, messages)
  {
    var f := FormatForLlama(systemPrompt, messages);
    var g := FormatForLlama(systemPrompt, f[1..]);
    assert forall i :: 0 <= i < |g| ==> g[i] == f[i] by {
      forall i | 0 <= i < |g|
        ensures g[i] == f[i]
      {
        if i > 0 {
          var k := i - 1;
          assert f[1..][k] == f[k + 1];
          assert f[k + 1].content == messages[k].content;
          assert f[k + 1].role == AssistantRole || f[k + 1].role == UserRole;
          assert g[k + 1].role == AssistantRole || g[k + 1].role == UserRole;
          assert g[k + 1].content == f[1..][k].content;
          assert g[k + 1].role == AssistantRole <==> f[1..][k].role == AssistantRole;
        }
      }
    }
  }

  // ---------------------------------------------------------------------------
  // Session resolution
  // ---------------------------------------------------------------------------

  /** Position of the first record whose profile equals `info`, if any. */
  function FirstWithProfile(interviews: seq<InterviewRecord>, info: CandidateInfo): (r: Option<nat>)
    ensures r.Some? ==> && r.value < |interviews|
                        && interviews[r.value].candidateInfo == info
                        && forall j :: 0 <= j < r.value ==> interviews[j].candidateInfo != info
    ensures r.None? ==> forall j :: 0 <= j < |interviews| ==> interviews[j].candidateInfo != info
  {
    if interviews == [] then None
    else if interviews[0].candidateInfo == info then Some(0)
    else match FirstWithProfile(interviews[1..], info)
      case Some(i) => Some(i + 1)
      case None => None
  }

  /** The `i`-th stored interview, in listing order, is the first one with profile `info`. */
  predicate IsFirstMatch(s: Store, info: CandidateInfo, i: int)
    requires Valid(s)
  {
    && 0 <= i < |s.order|
    && s.entries[s.order[i]].candidateInfo == info
    && forall j :: 0 <= j < i ==> s.entries[s.order[j]].candidateInfo != info
  }

  /** No stored interview has profile `info`. */
  predicate NoMatch(s: Store, info: CandidateInfo) {
    forall k :: k in s.entries ==> s.entries[k].candidateInfo != info
  }

  /**
   The id a turn is filed under: the id of the first listed interview with an
   identical profile, otherwise "interview_" followed by the clock reading.
   */
  function ResolveId(s: Store, info: CandidateInfo, clock: string): (id: string)
    requires Valid(s)
    ensures NoMatch(s, info) ==> id == IdPrefix + clock
    ensures forall i :: IsFirstMatch(s, info, i) ==> id == s.entries[s.order[i]].id
    ensures !NoMatch(s, info) && WellKeyed(s) ==>
              id in s.entries && s.entries[id].candidateInfo == info
  {
    var interviews := ListInterviews(s);
    match FirstWithProfile(interviews, info)
    case Some(i) =>
      assert IsFirstMatch(s, info, i);
      FirstMatchUnique(s, info, i);
      interviews[i].id
    case None =>
      assert NoMatch(s, info) by {
        forall k | k in s.entries
          ensures s.entries[k].candidateInfo != info
        {
          var j :| 0 <= j < |s.order| && s.order[j] == k;
          assert interviews[j] == s.entries[k];
        }
      }
      IdPrefix + clock
  }

  /** There is at most one first match. */
  lemma FirstMatchUnique(s: Store, info: CandidateInfo, i: int)
    requires Valid(s) && IsFirstMatch(s, info, i)
    ensures forall j :: IsFirstMatch(s, info, j) ==> j == i
  {
  }

  /** Some stored interview has profile `info`, so one of them is listed first. */
  lemma FirstMatchExists(s: Store, info: CandidateInfo)
    requires Valid(s) && !NoMatch(s, info)
    ensures exists i :: IsFirstMatch(s, info, i)
  {
    var k :| k in s.entries && s.entries[k].candidateInfo == info;
    var j :| 0 <= j < |s.order| && s.order[j] == k;
    var i := FirstMatchAtMost(s, info, j);
  }

  /** A record listed at `j` with profile `info` has the first such record at or before it. */
  lemma FirstMatchAtMost(s: Store, info: CandidateInfo, j: nat) returns (p: nat)
    requires Valid(s) && j < |s.order| && s.entries[s.order[j]].candidateInfo == info
    ensures p <= j && IsFirstMatch(s, info, p)
  {
    var interviews := ListInterviews(s);
    assert interviews[j].candidateInfo == info;
    p := FirstWithProfile(interviews, info).value;
  }

  // ---------------------------------------------------------------------------
  // The turn
  // ---------------------------------------------------------------------------

  /** The outcome of a turn: the response and the store afterwards. */
  datatype TurnResult = TurnResult(response: ChatResponse, store: Store)

  /** What the language model answers to the formatted conversation of a request. */
  function LlmReply(request: ChatRequest, systemPrompt: CandidateInfo -> string,
                    llm: seq<ChatMessage> -> Result<string>): Result<string>
  {
    llm(FormatForLlama(systemPrompt(request.candidateInfo), request.messages))
  }

  /** The record a successful turn saves. */
  function TurnRecord(id: string, request: ChatRequest, reply: string, now: string): InterviewRecord {
    InterviewRecord(
      id,
      request.candidateInfo,
      request.messages + [ChatMessage(AssistantRole, reply)],
      now,
      Some(AsDict(Evaluate(request.messages))))
  }

  /**
   One turn. `clock` is the wall-clock time formatted for ids, `now` the ISO
   timestamp, `systemPrompt` the prompt template and `llm` the language model.
   */
  function ChatTurn(s: Store, request: ChatRequest, clock: string, now: string,
                    systemPrompt: CandidateInfo -> string,
                    llm: seq<ChatMessage> -> Result<string>): (r: TurnResult)
    requires Valid(s)
    ensures Valid(r.store)
    ensures WellKeyed(s) ==> WellKeyed(r.store)
    ensures LlmReply(request, systemPrompt, llm).Failure? ==>
              r.store == s && r.response == ChatResponse(FallbackReply, None)
    ensures LlmReply(request, systemPrompt, llm).Success? ==>
              && r.response.message == LlmReply(request, systemPrompt, llm).value
              && r.response.interviewId == Some(ResolveId(s, request.candidateInfo, clock))
    ensures LlmReply(request, systemPrompt, llm).Success? ==>
              var id := ResolveId(s, request.candidateInfo, clock);
              && Get(r.store, id) == Some(TurnRecord(id, request, LlmReply(request, systemPrompt, llm).value, now))
              && forall k :: k != id ==> Get(r.store, k) == Get(s, k)
  {
    var id := ResolveId(s, request.candidateInfo, clock);
    match LlmReply(request, systemPrompt, llm)
    case Success(reply) =>
      TurnResult(ChatResponse(reply, Some(id)), Put(s, TurnRecord(id, request, reply, now)))
    case Failure(_) =>
      TurnResult(ChatResponse(FallbackReply, None), s)
  }

  // ---------------------------------------------------------------------------
  // Laws of a turn
  // ---------------------------------------------------------------------------

  /**
   The transcript a successful turn saves is the request's history followed by
   exactly one message, the model's reply; the cached scores are the evaluation
   of the request's history, which is also a fresh evaluation of the saved
   transcript.
   */
  lemma SavedTranscriptAndScores(id: string, request: ChatRequest, reply: string, now: string)
    ensures |TurnRecord(id, request, reply, now).messages| == |request.messages| + 1
    ensures TurnRecord(id, request, reply, now).messages[..|request.messages|] == request.messages
    ensures TurnRecord(id, request, reply, now).messages[|request.messages|] == ChatMessage(AssistantRole, reply)
    ensures TurnRecord(id, request, reply, now).evaluationScores
         == Some(AsDict(Evaluate(request.messages)))
    ensures TurnRecord(id, request, reply, now).evaluationScores
         == Some(AsDict(Evaluate(TurnRecord(id, request, reply, now).messages)))
    ensures EffectiveScores(TurnRecord(id, request, reply, now))
         == AsDict(Evaluate(TurnRecord(id, request, reply, now).messages))
  {
    var saved := TurnRecord(id, request, reply, now);
    assert saved.messages[..|request.messages|] == request.messages;
    ReplyDoesNotChangeScores(request.messages, reply);
  }

  /**
   Once a record is saved under the id its profile resolved to, that profile
   resolves to the same id, whatever the clock then reads.
   */
  lemma ResolveAfterSave(s: Store, saved: InterviewRecord, clock: string, laterClock: string)
    requires Valid(s) && WellKeyed(s)
    requires saved.id == ResolveId(s, saved.candidateInfo, clock)
    ensures ResolveId(Put(s, saved), saved.candidateInfo, laterClock) == saved.id
  {
    var info := saved.candidateInfo;
    var after := Put(s, saved);
    assert forall i :: IsFirstMatch(s, info, i) ==> s.order[i] == saved.id;
    var q := SavedPosition(s, saved);
    FirstMatchAfterPut(s, saved, q);
  }

  /** The saved record's position is the first match of its profile after the save. */
  lemma FirstMatchAfterPut(s: Store, saved: InterviewRecord, q: nat)
    requires Valid(s)
    requires q < |Put(s, saved).order| && Put(s, saved).order[q] == saved.id
    requires q <= |s.order| && Put(s, saved).order[..q] == s.order[..q]
    requires forall j :: 0 <= j < q ==> s.order[j] != saved.id
    requires forall j :: 0 <= j < q ==> s.entries[s.order[j]].candidateInfo != saved.candidateInfo
    ensures IsFirstMatch(Put(s, saved), saved.candidateInfo, q)
  {
    var after := Put(s, saved);
    forall j | 0 <= j < q
      ensures after.entries[after.order[j]].candidateInfo != saved.candidateInfo
    {
      assert after.order[j] == s.order[j];
    }
  }

  /**
   Where the saved record is listed after the save: every record listed before it
   was already stored, under another id, with another profile.
   */
  lemma SavedPosition(s: Store, saved: InterviewRecord) returns (q: nat)
    requires Valid(s)
    requires forall i :: IsFirstMatch(s, saved.candidateInfo, i) ==> s.order[i] == saved.id
    ensures q < |Put(s, saved).order| && Put(s, saved).order[q] == saved.id
    ensures q <= |s.order| && Put(s, saved).order[..q] == s.order[..q]
    ensures forall j :: 0 <= j < q ==> s.order[j] != saved.id
    ensures forall j :: 0 <= j < q ==> s.entries[s.order[j]].candidateInfo != saved.candidateInfo
  {
    var id := saved.id;
    if id in s.entries {
      q :| q < |s.order| && s.order[q] == id;
    } else {
      q := |s.order|;
      assert Put(s, saved).order == s.order + [id];
    }
    forall j | 0 <= j < q
      ensures s.entries[s.order[j]].candidateInfo != saved.candidateInfo
    {
      NoEarlierMatch(s, saved.candidateInfo, id, q, j);
    }
  }

  /**
   If the first record with profile `info` is the one filed under `id`, the record
   listed at `j`, before `id`'s position `q`, has another profile.
   */
  lemma NoEarlierMatch(s: Store, info: CandidateInfo, id: string, q: nat, j: nat)
    requires Valid(s)
    requires forall i :: IsFirstMatch(s, info, i) ==> s.order[i] == id
    requires j < q <= |s.order|
    requires forall k :: 0 <= k < q ==> s.order[k] != id
    ensures s.entries[s.order[j]].candidateInfo != info
  {
    if s.entries[s.order[j]].candidateInfo == info {
      var p := FirstMatchAtMost(s, info, j);
      assert false;
    }
  }

  /**
   A profile with no stored interview mints "interview_" followed by the clock
   reading. When a record of another candidate is already stored under that id,
   as when two new candidates start within the same second, the successful turn
   replaces that record: no key is added and the other candidate's interview is gone.
   */
  lemma MintedIdOverwrites(s: Store, request: ChatRequest, clock: string, now: string,
                           systemPrompt: CandidateInfo -> string,
                           llm: seq<ChatMessage> -> Result<string>)
    requires Valid(s) && WellKeyed(s)
    requires NoMatch(s, request.candidateInfo)
    requires IdPrefix + clock in s.entries
    requires LlmReply(request, systemPrompt, llm).Success?
    ensures var after := ChatTurn(s, request, clock, now, systemPrompt, llm).store;
            && after.entries.Keys == s.entries.Keys
            && after.entries[IdPrefix + clock].candidateInfo == request.candidateInfo
            && s.entries[IdPrefix + clock].candidateInfo != request.candidateInfo
  {
    var id := ResolveId(s, request.candidateInfo, clock);
    assert id == IdPrefix + clock;
    var after := ChatTurn(s, request, clock, now, systemPrompt, llm).store;
    assert Get(after, id).Some?;
  }

  /**
   After a successful turn, the next turn with the same profile resolves to the
   same interview, whatever the clock then reads.
   */
  lemma ResumeSameInterview(s: Store, request: ChatRequest, clock: string, now: string,
                            systemPrompt: CandidateInfo -> string,
                            llm: seq<ChatMessage> -> Result<string>, laterClock: string)
    requires Valid(s) && WellKeyed(s)
    requires LlmReply(request, systemPrompt, llm).Success?
    ensures var after := ChatTurn(s, request, clock, now, systemPrompt, llm).store;
            ResolveId(after, request.candidateInfo, laterClock) == ResolveId(s, request.candidateInfo, clock)
  {
    var id := ResolveId(s, request.candidateInfo, clock);
    var saved := TurnRecord(id, request, LlmReply(request, systemPrompt, llm).value, now);
    assert ChatTurn(s, request, clock, now, systemPrompt, llm).store == Put(s, saved);
    ResolveAfterSave(s, saved, clock, laterClock);
  }
}
