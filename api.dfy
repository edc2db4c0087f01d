/**
 * The response envelope of the REST handlers and the frames written to a
 * room's WebSocket clients (backend/src/handler/api/mod.rs). Both are plain
 * records; the model builds the record and leaves its JSON text to serde.
 */
module Api {
  import opened Common

  /** The envelope every REST handler answers with. */
  datatype ApiResponse<T> = ApiResponse(status: string, code: string, message: string, data: Option<T>)

  /** A response reporting success: status "success" with code "ok". */
  predicate IsSuccess<T>(r: ApiResponse<T>) {
    r.status == "success" && r.code == "ok"
  }

  /** A response reporting a failure. */
  predicate IsError<T>(r: ApiResponse<T>) {
    r.status == "error"
  }

  /** The code of the unauthorized response, spelled as the backend spells it. */
  const UnauthorizedCode := "UNAUTHORZIED"

  /** `ApiResponse::success`: a success carrying only a message. */
  function Success<T>(msg: string): (r: ApiResponse<T>)
    ensures IsSuccess(r) && !IsError(r)
    ensures r.message == msg && r.data.None?
  {
    ApiResponse("success", "ok", msg, None)
  }

  /** `ApiResponse::success_with_data`: a success that also carries a payload. */
  function SuccessWithData<T>(msg: string, data: T): (r: ApiResponse<T>)
    ensures IsSuccess(r) && !IsError(r)
    ensures r.message == msg && r.data == Some(data)
    ensures r == Success<T>(msg).(data := Some(data))
  {
    ApiResponse("success", "ok", msg, Some(data))
  }

  /** `ApiResponse::error`: a failure with the caller's code and message. */
  function Error<T>(code: string, msg: string): (r: ApiResponse<T>)
    ensures IsError(r) && !IsSuccess(r)
    ensures r.code == code && r.message == msg && r.data.None?
  {
    ApiResponse("error", code, msg, None)
  }

  /** `ApiResponse::unauthorized`: the fixed failure answered to a request without a valid session. */
  function Unauthorized<T>(): (r: ApiResponse<T>)
    ensures r == Error<T>(UnauthorizedCode, "Unauthorized operation")
    ensures IsError(r) && r.data.None?
  {
    ApiResponse("error", "UNAUTHORZIED", "Unauthorized operation", None)
  }

  /** The four ways the handlers build a response. */
  datatype ResponseCall<T> =
    | CallSuccess(msg: string)
    | CallSuccessWithData(msg: string, payload: T)
    | CallError(code: string, msg: string)
    | CallUnauthorized

  function Respond<T>(call: ResponseCall<T>): ApiResponse<T> {
    match call
    case CallSuccess(msg) => Success(msg)
    case CallSuccessWithData(msg, payload) => SuccessWithData(msg, payload)
    case CallError(code, msg) => Error(code, msg)
    case CallUnauthorized => Unauthorized()
  }

  /**
   * Only `success_with_data` produces a payload, the two success
   * constructors are exactly the ones that report success, and every
   * other constructor reports an error.
   */
  lemma ResponseKinds<T>(call: ResponseCall<T>)
    ensures Respond(call).data.Some? <==> call.CallSuccessWithData?
    ensures IsSuccess(Respond(call)) <==> call.CallSuccess? || call.CallSuccessWithData?
    ensures IsError(Respond(call)) <==> !IsSuccess(Respond(call))
  {
  }

  /** Method tag of a frame sent to a room's clients. */
  datatype StreamMethod = Send | Join | Leave

  /** A frame sent to a room's clients; `kind` is the source's `method` field (a Dafny keyword). */
  datatype StreamCommand = StreamCommand(kind: StreamMethod, message: string, sender: string)

  /** The sender name of presence notices. */
  const SystemSender := "System"

  const UserPrefix := "User "
  const JoinSuffix := " join the room"
  const LeaveSuffix := " leave the room"

  /** `StreamCommand::join`: the system notice that a user entered the room. */
  function StreamJoin(user: string): (r: StreamCommand)
    ensures r.kind == Join && r.sender == SystemSender
    ensures r.message == "User " + user + " join the room"
  {
    StreamCommand(Join, "User " + user + " join the room", "System")
  }

  /** `StreamCommand::send`: a user's chat message, passed on verbatim. */
  function StreamSend(user: string, message: string): (r: StreamCommand)
    ensures r.kind == Send && r.sender == user && r.message == message
  {
    StreamCommand(Send, message, user)
  }

  /** `StreamCommand::leave`: the system notice that a user left the room. */
  function StreamLeave(user: string): (r: StreamCommand)
    ensures r.kind == Leave && r.sender == SystemSender
    ensures r.message == "User " + user + " leave the room"
  {
    StreamCommand(Leave, "User " + user + " leave the room", "System")
  }

  /**
   * Reads back the user named by a presence notice text
   * "User <name><suffix>"; None when the text does not have that shape.
   */
  function NoticeSubject(message: string, suffix: string): (r: Option<string>)
    ensures r.Some? ==> message == UserPrefix + r.value + suffix
    ensures r.None? ==> forall user :: message != UserPrefix + user + suffix
  {
    if |UserPrefix| + |suffix| <= |message|
       && message[..|UserPrefix|] == UserPrefix
       && message[|message| - |suffix|..] == suffix
    then
      var user := message[|UserPrefix|..|message| - |suffix|];
      assert message == message[..|UserPrefix|] + user + message[|message| - |suffix|..];
      Some(user)
    else
      assert forall user :: var m := UserPrefix + user + suffix;
        m[..|UserPrefix|] == UserPrefix && m[|m| - |suffix|..] == suffix;
      None
  }

  /**
   * The user a presence frame announces, read back from its text. A `Send`
   * frame is never a presence notice, whoever its sender is.
   */
  function NoticeUser(frame: StreamCommand): Option<string> {
    if frame.sender != SystemSender then None
    else match frame.kind
      case Join => NoticeSubject(frame.message, JoinSuffix)
      case Leave => NoticeSubject(frame.message, LeaveSuffix)
      case Send => None
  }

  /** The join and leave notices name their user recoverably. */
  lemma NoticeRoundTrip(user: string)
    ensures NoticeUser(StreamJoin(user)) == Some(user)
    ensures NoticeUser(StreamLeave(user)) == Some(user)
  {
    SubjectRoundTrip(user, JoinSuffix);
    SubjectRoundTrip(user, LeaveSuffix);
  }

  lemma SubjectRoundTrip(user: string, suffix: string)
    ensures NoticeSubject(UserPrefix + user + suffix, suffix) == Some(user)
  {
    var m := UserPrefix + user + suffix;
    assert m[..|UserPrefix|] == UserPrefix;
    assert m[|m| - |suffix|..] == suffix;
    assert m[|UserPrefix|..|m| - |suffix|] == user;
  }

  /** Distinct users get distinct notices. */
  lemma NoticesInjective(u: string, v: string)
    ensures StreamJoin(u) == StreamJoin(v) ==> u == v
    ensures StreamLeave(u) == StreamLeave(v) ==> u == v
  {
    NoticeRoundTrip(u);
    NoticeRoundTrip(v);
  }

  /** The text of a join notice is never the text of a leave notice, whoever the users are. */
  lemma JoinTextIsNotLeaveText(u: string, v: string)
    ensures StreamJoin(u).message != StreamLeave(v).message
  {
    var j := StreamJoin(u).message;
    var l := StreamLeave(v).message;
    // the fourteenth character from the end is the blank before "join" in one and the "l" of "leave" in the other
    assert j[|j| - 14] == ' ';
    assert l[|l| - 14] == 'l';
  }
}
