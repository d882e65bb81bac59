/**
 The records exchanged and persisted by the interview backend: the candidate's
 profile, role-tagged chat messages, the stored interview and the request and
 response of one chat turn.
 */
module Interview {
  import opened Wrappers

  /** The candidate's profile; two profiles are the same only if every field, and the stack order, agree. */
  datatype CandidateInfo = CandidateInfo(
    name: string,
    experienceYears: int,
    techStack: seq<string>,
    position: string)

  /** One turn of the conversation. The role is free text: "user", "assistant", or anything else. */
  datatype ChatMessage = ChatMessage(role: string, content: string)

  /** One dimension of an evaluation, as an item of the scores dictionary. */
  datatype Score = Score(dimension: string, value: real)

  /** A scores dictionary: its items in insertion order. */
  type ScoreDict = seq<Score>

  /** A persisted interview: profile, transcript, last-update timestamp and the cached scores, if any. */
  datatype InterviewRecord = InterviewRecord(
    id: string,
    candidateInfo: CandidateInfo,
    messages: seq<ChatMessage>,
    timestamp: string,
    evaluationScores: Option<ScoreDict>)

  /** The body of one chat turn. */
  datatype ChatRequest = ChatRequest(candidateInfo: CandidateInfo, messages: seq<ChatMessage>)

  /** The reply of one chat turn; the interview id is absent when the turn failed. */
  datatype ChatResponse = ChatResponse(message: string, interviewId: Option<string>)

  const UserRole := "user"
  const AssistantRole := "assistant"
  const SystemRole := "system"
}
