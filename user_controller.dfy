/**
 * The user endpoints that decide something themselves: the input checks of
 * the two password-reset steps, and the mapping of the services' results to
 * status codes. The services are parameters; a service call that throws is a
 * `Failure`.
 */
module UserController {
  import opened Wrappers
  import opened Text
  import opened UserDto
  import opened Responses

  /** A JSON object of string fields, as the reset endpoints read and write them. */
  type Json = map<string, string>

  /** The call a reset endpoint makes on the password-reset service. */
  datatype ServiceCall =
    | RequestReset(email: string)
    | ConfirmReset(token: string, newPassword: string)

  /** What a reset endpoint answers, and the service call it made, if any. */
  datatype Reply = Reply(response: Response<Json>, call: Option<ServiceCall>)

  /** `v == null || v.trim().isEmpty()` for the field `key` of the request body. */
  predicate Absent(body: Json, key: string) {
    key !in body || Trim(JavaTrim, body[key]) == ""
  }

  /** A 400 answer with an `error` field, and no service call. */
  function Rejected(error: string): Reply {
    Reply(Response(400, Some(map["error" := error])), None)
  }

  /**
   * `requestPasswordReset`: without a non-blank `email` the answer is 400
   * "email is required" and the service is not called; otherwise the service
   * gets the address as sent (untrimmed) and the answer is 200 with a message
   * and the token it returned. A service failure propagates.
   */
  function RequestPasswordReset(body: Json, requestReset: string -> Result<string>): (r: Result<Reply>)
    ensures Absent(body, "email") ==> r == Success(Rejected("email is required"))
    ensures !Absent(body, "email") ==>
              (r.Failure? <==> requestReset(body["email"]).Failure?)
    ensures r.Success? && !Absent(body, "email") ==>
              && r.value.call == Some(RequestReset(body["email"]))
              && r.value.response.status == 200
              && r.value.response.body.Some?
              && r.value.response.body.value.Keys == {"message", "token"}
              && r.value.response.body.value["token"] == requestReset(body["email"]).value
  {
    if Absent(body, "email") then Success(Rejected("email is required"))
    else
      var email := body["email"];
      match requestReset(email)
      case Failure(e, m) => Failure(e, m)
      case Success(token) =>
        Success(Reply(Response(200, Some(map["message" := "Reset token created (DEV mode returned).",
                                             "token" := token])),
                      Some(RequestReset(email))))
  }

  /**
   * `confirmPasswordReset`: the token is checked first, then the new
   * password, each blank field answered with 400 naming it and no service
   * call; with both present the service is called with both as sent and the
   * answer is 200. A service failure propagates.
   */
  function ConfirmPasswordReset(body: Json, confirmReset: (string, string) -> Result<()>): (r: Result<Reply>)
    ensures Absent(body, "token") ==> r == Success(Rejected("token is required"))
    ensures !Absent(body, "token") && Absent(body, "newPassword") ==> r == Success(Rejected("newPassword is required"))
    ensures r.Success? && r.value.response.status == 400 ==> r.value.call.None?
    ensures r.Success? && r.value.response.status == 200 <==>
              !Absent(body, "token") && !Absent(body, "newPassword")
              && confirmReset(body["token"], body["newPassword"]).Success?
    ensures r.Success? && r.value.response.status == 200 ==>
              && r.value.call == Some(ConfirmReset(body["token"], body["newPassword"]))
              && r.value.response.body == Some(map["message" := "Password successfully reset"])
  {
    if Absent(body, "token") then Success(Rejected("token is required"))
    else if Absent(body, "newPassword") then Success(Rejected("newPassword is required"))
    else
      var token := body["token"];
      var newPassword := body["newPassword"];
      match confirmReset(token, newPassword)
      case Failure(e, m) => Failure(e, m)
      case Success(_) =>
        Success(Reply(Response(200, Some(map["message" := "Password successfully reset"])),
                      Some(ConfirmReset(token, newPassword))))
  }

  /** Both fields blank: the answer names the token, not the new password. */
  lemma TokenCheckedFirst(confirmReset: (string, string) -> Result<()>)
    ensures ConfirmPasswordReset(map[], confirmReset) == Success(Rejected("token is required"))
    ensures ConfirmPasswordReset(map["token" := " ", "newPassword" := ""], confirmReset)
            == Success(Rejected("token is required"))
  {
    assert Trim(JavaTrim, " ") == "" by {
      TrimEmptyIffBlank(JavaTrim, " ");
    }
  }

  /** `register`: the registered user, or 400 when the service gives nothing. */
  function Register<Req, Res>(register: Req -> Option<Res>, request: Req): (r: Response<Res>)
    ensures r.status == 400 <==> register(request).None?
    ensures r.status == 200 ==> r.body == register(request)
  {
    OkOrBadRequest(register(request))
  }

  /** `login`: the login response, or 400 when the service gives nothing. */
  function Login<Req, Res>(login: Req -> Option<Res>, request: Req): (r: Response<Res>)
    ensures r.status == 400 <==> login(request).None?
    ensures r.status == 200 ==> r.body == login(request)
  {
    OkOrBadRequest(login(request))
  }

  /** `findById`: the user, or 404. */
  function FindById<Res>(findUser: int -> Option<Res>, id: int): (r: Response<Res>)
    ensures r.status == 404 <==> findUser(id).None?
    ensures r.status == 200 ==> r.body == findUser(id)
  {
    OkOrNotFound(findUser(id))
  }

  /** `save`: a request breaking a constraint is answered with 400; otherwise the saved user. */
  function Save<Res>(save: CreateUserDto -> Res, d: CreateUserDto, isEmail: string -> bool): (r: Response<Res>)
    ensures r.status == 400 <==> Violations(d, isEmail) != {}
    ensures r.status != 400 ==> r == Response(200, Some(save(d)))
  {
    if Violations(d, isEmail) != {} then Response(400, None) else Response(200, Some(save(d)))
  }

  /**
   * `update`: a request breaking a constraint is answered with 400 before the
   * service is called; otherwise the updated user, or 404.
   */
  function Update<Res>(update: (int, CreateUserDto) -> Option<Res>, id: int, d: CreateUserDto,
                       isEmail: string -> bool): (r: Response<Res>)
    ensures r.status == 400 <==> Violations(d, isEmail) != {}
    ensures r.status == 404 <==> Violations(d, isEmail) == {} && update(id, d).None?
    ensures r.status == 200 ==> r.body == update(id, d)
  {
    if Violations(d, isEmail) != {} then Response(400, None) else OkOrNotFound(update(id, d))
  }

  /** `deleteById`: the deleted user, or 404. */
  function DeleteById<Res>(delete: int -> Option<Res>, id: int): (r: Response<Res>)
    ensures r.status == 404 <==> delete(id).None?
    ensures r.status == 200 ==> r.body == delete(id)
  {
    OkOrNotFound(delete(id))
  }
}
