/**
 The browser-side chat store: the candidate's profile, the transcript shown on
 screen and whether the interview has started. Each action merges a partial
 update into the state, so fields an action does not name keep their values.
 */
module ChatStore {
  import opened Wrappers
  import opened Interview

  datatype ChatState = ChatState(
    candidateInfo: Option<CandidateInfo>,
    messages: seq<ChatMessage>,
    isInterviewStarted: bool)

  /** The state the store is created with, and the one `reset` returns to. */
  function Initial(): (s: ChatState)
    ensures s.candidateInfo.None? && s.messages == [] && !s.isInterviewStarted
  {
    ChatState(None, [], false)
  }

  /** `setCandidateInfo(info)`: replaces the profile only. */
  function SetCandidateInfo(s: ChatState, info: CandidateInfo): (r: ChatState)
    ensures r.candidateInfo == Some(info)
    ensures r.messages == s.messages && r.isInterviewStarted == s.isInterviewStarted
  {
    s.(candidateInfo := Some(info))
  }

  /** `addMessage(m)`: appends one message at the end of the transcript. */
  function AddMessage(s: ChatState, m: ChatMessage): (r: ChatState)
    ensures |r.messages| == |s.messages| + 1
    ensures r.messages[..|s.messages|] == s.messages && r.messages[|s.messages|] == m
    ensures r.candidateInfo == s.candidateInfo && r.isInterviewStarted == s.isInterviewStarted
  {
    s.(messages := s.messages + [m])
  }

  /** `startInterview()`: raises the started flag only. */
  function StartInterview(s: ChatState): (r: ChatState)
    ensures r.isInterviewStarted
    ensures r.candidateInfo == s.candidateInfo && r.messages == s.messages
  {
    s.(isInterviewStarted := true)
  }

  /** `reset()`: back to the initial state. */
  function Reset(s: ChatState): (r: ChatState)
    ensures r == Initial()
    ensures r.candidateInfo.None? && r.messages == [] && !r.isInterviewStarted
  {
    Initial()
  }

  /** Setting the same profile twice, or starting twice, is the same as doing it once. */
  lemma SettersIdempotent(s: ChatState, info: CandidateInfo)
    ensures SetCandidateInfo(SetCandidateInfo(s, info), info) == SetCandidateInfo(s, info)
    ensures StartInterview(StartInterview(s)) == StartInterview(s)
  {
  }

  /** The store's actions. */
  datatype Action =
    | SetInfo(info: CandidateInfo)
    | Add(message: ChatMessage)
    | Start
    | ResetAll

  function Step(s: ChatState, a: Action): ChatState {
    match a
    case SetInfo(info) => SetCandidateInfo(s, info)
    case Add(m) => AddMessage(s, m)
    case Start => StartInterview(s)
    case ResetAll => Reset(s)
  }

  /** The state after performing the actions in order. */
  function Run(s: ChatState, actions: seq<Action>): ChatState {
    if actions == [] then s else Step(Run(s, actions[..|actions| - 1]), actions[|actions| - 1])
  }

  /** The messages added since the last reset, in the order they were added. */
  function AddedSinceReset(actions: seq<Action>): seq<ChatMessage> {
    if actions == [] then []
    else
      var init := AddedSinceReset(actions[..|actions| - 1]);
      match actions[|actions| - 1]
      case Add(m) => init + [m]
      case ResetAll => []
      case _ => init
  }

  /** Whether a start happened since the last reset. */
  predicate StartedSinceReset(actions: seq<Action>) {
    exists i :: 0 <= i < |actions| && actions[i] == Start
      && forall j :: i < j < |actions| ==> actions[j] != ResetAll
  }

  /**
   From the initial state, the transcript is exactly the messages added since the
   last reset (it only ever grows between resets), and the interview counts as
   started exactly when a start happened since then.
   */
  lemma {:induction false} RunFromInitial(actions: seq<Action>)
    ensures Run(Initial(), actions).messages == AddedSinceReset(actions)
    ensures Run(Initial(), actions).isInterviewStarted <==> StartedSinceReset(actions)
  {
    if actions != [] {
      RunFromInitial(actions[..|actions| - 1]);
      StartedStep(actions);
    } else {
      assert !StartedSinceReset(actions);
    }
  }

  /**
   A start has happened since the last reset exactly when the latest action is a
   start, or it is not a reset and one had happened before it.
   */
  lemma StartedStep(actions: seq<Action>)
    requires actions != []
    ensures var n := |actions| - 1;
            StartedSinceReset(actions)
            <==> actions[n] == Start || (actions[n] != ResetAll && StartedSinceReset(actions[..n]))
  {
    var n := |actions| - 1;
    var init := actions[..n];
    assert forall i :: 0 <= i < n ==> init[i] == actions[i];
    if actions[n] == Start {
      assert StartedSinceReset(actions) by {
        assert actions[n] == Start;
      }
    } else if actions[n] == ResetAll {
      assert !StartedSinceReset(actions);
    } else {
      if StartedSinceReset(init) {
        var i :| 0 <= i < n && init[i] == Start && forall j :: i < j < n ==> init[j] != ResetAll;
        assert actions[i] == Start;
      }
      if StartedSinceReset(actions) {
        var i :| 0 <= i < |actions| && actions[i] == Start && forall j :: i < j < |actions| ==> actions[j] != ResetAll;
        assert i < n;
        assert init[i] == Start;
      }
    }
  }

  /** Whatever state the store is in, resetting returns it to the initial state. */
  lemma {:induction false} ResetForgetsHistory(s: ChatState, actions: seq<Action>)
    ensures Run(s, actions + [ResetAll]) == Initial()
  {
    assert (actions + [ResetAll])[..|actions|] == actions;
  }
}
