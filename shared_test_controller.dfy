/**
 * The demo endpoints of `SharedTestController`, each reduced to a function
 * from its query parameter (absent, or one string) and the injected clock
 * readings to the HTTP status and the JSON envelope it answers with.
 */
module SharedTestController {
  import opened Wrappers
  import opened Chars
  import opened Timestamps
  import opened Api
  import opened Responses
  import opened MockUsers
  import opened Emails
  import opened Greetings
  import opened JsNumbers

  datatype Reply = Reply(status: int, body: ApiResponse)

  const Ok: int := 200
  const BadRequest: int := 400

  /** `!value` for a query parameter: absent or the empty string. */
  predicate IsMissing(q: Option<string>) {
    q.None? || q.value == ""
  }

  /** The fields of a user object, as spread into `data`. */
  function UserFields(u: UserData): map<string, Value> {
    map["id" := Num(u.id), "name" := Str(u.name), "email" := Str(u.email), "createdAt" := Str(u.createdAt)]
  }

  /** `GET /api/shared/greeting?name=...`: 200 with data exactly when a name is given, 400 without data otherwise. */
  function Greeting(name: Option<string>, hour: int, greetingTime: DateTime, responseTime: DateTime): (r: Reply)
    requires Valid(greetingTime) && Valid(responseTime)
    ensures r.status == Ok || r.status == BadRequest
    ensures r.status == Ok <==> !IsMissing(name)
    ensures r.body.success <==> r.status == Ok
    ensures r.body.data.Some? <==> r.status == Ok
  {
    if IsMissing(name) then
      Reply(BadRequest, CreateApiResponse(false, "Name parameter is required", None, responseTime))
    else
      var greeting := GenerateGreeting(name.value, hour, greetingTime);
      Reply(Ok, CreateApiResponse(true, "Greeting generated successfully",
                                  Some(map["greeting" := Str(greeting), "name" := Str(name.value)]), responseTime))
  }

  /** `!id || Number.isNaN(Number(id))`. */
  predicate IdRejected(id: Option<string>) {
    IsMissing(id) || StringToNumber(id.value).NaN?
  }

  /**
   * `GET /api/shared/user?id=...`; the error is the one `generateMockUser`
   * throws for the negative ids it cannot name.
   */
  function User(id: Option<string>, userTime: DateTime, responseTime: DateTime): (r: Result<Reply, MockUserError>)
    requires Valid(userTime) && Valid(responseTime)
    requires !IsMissing(id) ==> !StringToNumber(id.value).Uncomputed?
    ensures r.Failure? ==> !IdRejected(id) && StringToNumber(id.value).n < 0
    ensures r.Success? ==> r.value.status == Ok || r.value.status == BadRequest
    ensures r.Success? ==> (r.value.status == Ok <==> !IdRejected(id))
    ensures r.Success? ==> (r.value.body.success <==> r.value.status == Ok)
    ensures r.Success? ==> (r.value.body.data.Some? <==> r.value.status == Ok)
  {
    if IdRejected(id) then
      Success(Reply(BadRequest, CreateApiResponse(false, "Valid ID parameter is required", None, responseTime)))
    else
      match GenerateMockUser(StringToNumber(id.value).n, userTime)
      case Failure(e) => Failure(e)
      case Success(u) =>
        Success(Reply(Ok, CreateApiResponse(true, "Mock user generated successfully", Some(UserFields(u)), responseTime)))
  }

  /**
   * `GET /api/shared/validate-email?email=...`: 200 with data exactly when an
   * email is given, whether or not it is valid; 400 without data otherwise.
   */
  function ValidateEmail(email: Option<string>, responseTime: DateTime): (r: Reply)
    requires Valid(responseTime)
    ensures r.status == Ok || r.status == BadRequest
    ensures r.status == Ok <==> !IsMissing(email)
    ensures r.body.success <==> r.status == Ok
    ensures r.body.data.Some? <==> r.status == Ok
  {
    if IsMissing(email) then
      Reply(BadRequest, CreateApiResponse(false, "Email parameter is required", None, responseTime))
    else
      var isValid := IsValidEmail(email.value);
      Reply(Ok, CreateApiResponse(true, "Email validation completed",
                                  Some(map["email" := Str(email.value), "isValid" := Bool(isValid),
                                           "message" := Str(if isValid then "Valid email format" else "Invalid email format")]),
                                  responseTime))
  }

  /** `GET /api/shared/all`: it needs no parameter and always answers 200 with its four fields. */
  function All(hour: int, greetingTime: DateTime, userTime: DateTime, responseTime: DateTime): (r: Reply)
    requires Valid(greetingTime) && Valid(userTime) && Valid(responseTime)
    ensures r.status == Ok && r.body.success
    ensures r.body.data.Some? && r.body.data.value.Keys == {"greeting", "user", "emailValidation", TimestampKey}
  {
    MockUserExample(1, userTime);
    var testData := map[
      "greeting" := Str(GenerateGreeting("Developer", hour, greetingTime)),
      "user" := Obj(UserFields(GenerateMockUser(1, userTime).value)),
      "emailValidation" := Obj(map["valid" := Bool(IsValidEmail("test@example.com")),
                                   "invalid" := Bool(IsValidEmail("invalid-email"))])];
    Reply(Ok, CreateApiResponse(true, "All shared functions tested successfully", Some(testData), responseTime))
  }

  /** The answer to a request that lacks its required parameter: status 400, failure, the message, no data. */
  predicate IsRejection(r: Reply, message: string) {
    r.status == BadRequest && !r.body.success && r.body.message == Some(message) && r.body.data.None?
  }

  /** A missing or empty name is answered with 400 and "Name parameter is required". */
  lemma GreetingWithoutName(name: Option<string>, hour: int, greetingTime: DateTime, responseTime: DateTime)
    requires Valid(greetingTime) && Valid(responseTime) && IsMissing(name)
    ensures IsRejection(Greeting(name, hour, greetingTime, responseTime), "Name parameter is required")
  {
  }

  /** A name is echoed back beside the greeting generated for it, with status 200. */
  lemma GreetingWithName(name: string, hour: int, greetingTime: DateTime, responseTime: DateTime)
    requires Valid(greetingTime) && Valid(responseTime) && name != ""
    ensures var r := Greeting(Some(name), hour, greetingTime, responseTime);
      && r.status == Ok && r.body.success
      && r.body.message == Some("Greeting generated successfully")
      && r.body.data.Some?
      && r.body.data.value.Keys == {"greeting", "name", TimestampKey}
      && r.body.data.value["name"] == Str(name)
      && r.body.data.value["greeting"] == Str(GenerateGreeting(name, hour, greetingTime))
  {
  }

  /** An absent, empty or NaN id is answered with 400, whatever the clock: no user is generated. */
  lemma UserWithoutValidId(id: Option<string>, userTime: DateTime, otherTime: DateTime, responseTime: DateTime)
    requires Valid(userTime) && Valid(otherTime) && Valid(responseTime)
    requires IdRejected(id)
    ensures var r := User(id, userTime, responseTime);
      && r.Success?
      && IsRejection(r.value, "Valid ID parameter is required")
      && r == User(id, otherTime, responseTime)
  {
  }

  /** The fixtures of the backend tests: no id and `id=invalid` are both rejected. */
  lemma UserRejectionExamples(id: Option<string>, userTime: DateTime, responseTime: DateTime)
    requires Valid(userTime) && Valid(responseTime)
    requires id == None || id == Some("invalid")
    ensures IdRejected(id)
    ensures IsRejection(User(id, userTime, responseTime).value, "Valid ID parameter is required")
  {
    if id.Some? {
      InvalidIsNaN(id.value);
    }
    UserWithoutValidId(id, userTime, userTime, responseTime);
  }

  /** A decimal id answers 200 with the user generated for its value plus the timestamp. */
  lemma UserWithDecimalId(id: string, userTime: DateTime, responseTime: DateTime)
    requires Valid(userTime) && Valid(responseTime)
    requires IsDigits(id) && DigitsValue(id) <= MaxSafeInteger
    ensures StringToNumber(id) == Integer(DigitsValue(id))
    ensures var r := User(Some(id), userTime, responseTime);
      && var u := GenerateMockUser(DigitsValue(id), userTime);
      && u.Success? && r.Success?
      && r.value.status == Ok && r.value.body.success
      && r.value.body.message == Some("Mock user generated successfully")
      && r.value.body.data == Some(UserFields(u.value)[TimestampKey := Str(FormatTimestamp(responseTime))])
  {
    DigitsToNumber(id);
    MockUserOfNonNegativeId(DigitsValue(id), userTime);
  }

  /** `id=1` is Bob, bob1@test.org. */
  lemma UserExample(id: string, userTime: DateTime, responseTime: DateTime)
    requires Valid(userTime) && Valid(responseTime) && id == "1"
    ensures StringToNumber(id) == Integer(1)
    ensures var r := User(Some(id), userTime, responseTime);
      && r.Success? && r.value.status == Ok
      && r.value.body.data == Some(UserFields(UserData(1, "Bob", "bob1@test.org", FormatTimestamp(userTime)))
                                     [TimestampKey := Str(FormatTimestamp(responseTime))])
  {
    assert IsDigits(id) && DigitsValue(id) == 1;
    UserWithDecimalId(id, userTime, responseTime);
    MockUserExample(1, userTime);
  }

  /** An id that reads as an integer reaches `generateMockUser`: the handler throws exactly when it throws. */
  lemma UserThrowsOnlyInGenerator(id: string, userTime: DateTime, responseTime: DateTime)
    requires Valid(userTime) && Valid(responseTime)
    requires id != "" && StringToNumber(id).Integer?
    ensures var r, u := User(Some(id), userTime, responseTime), GenerateMockUser(StringToNumber(id).n, userTime);
      && (r.Failure? <==> u.Failure?)
      && (r.Failure? ==> r.error == u.error)
      && (r.Success? ==>
            && r.value.status == Ok && r.value.body.success
            && r.value.body.message == Some("Mock user generated successfully")
            && r.value.body.data == Some(UserFields(u.value)[TimestampKey := Str(FormatTimestamp(responseTime))]))
  {
  }

  /**
   * A minus sign before digits whose value is not a multiple of 5 (`id=-1`)
   * reaches `generateMockUser`, which throws: there is no reply.
   */
  lemma UserWithNegativeIdThrows(digits: string, userTime: DateTime, responseTime: DateTime)
    requires Valid(userTime) && Valid(responseTime)
    requires IsDigits(digits) && DigitsValue(digits) <= MaxSafeInteger && DigitsValue(digits) % 5 != 0
    ensures StringToNumber("-" + digits) == Integer(-(DigitsValue(digits) as int))
    ensures User(Some("-" + digits), userTime, responseTime) == Failure(NameIsUndefined)
  {
    NegativeDigitsToNumber(digits);
    var id, n := "-" + digits, -(DigitsValue(digits) as int);
    NegativeIdThrows(n, userTime);
    UserThrowsOnlyInGenerator(id, userTime, responseTime);
  }

  /** A missing or empty email is answered with 400 and "Email parameter is required". */
  lemma ValidateEmailWithoutEmail(email: Option<string>, responseTime: DateTime)
    requires Valid(responseTime) && IsMissing(email)
    ensures IsRejection(ValidateEmail(email, responseTime), "Email parameter is required")
  {
  }

  /**
   * A present email always succeeds with 200, even when it is not valid;
   * `isValid` is the validator's verdict and the inner message says which.
   */
  lemma ValidateEmailWithEmail(email: string, responseTime: DateTime)
    requires Valid(responseTime) && email != ""
    ensures var r := ValidateEmail(Some(email), responseTime);
      && r.status == Ok && r.body.success
      && r.body.message == Some("Email validation completed")
      && r.body.data.Some?
      && r.body.data.value["email"] == Str(email)
      && r.body.data.value["isValid"] == Bool(IsValidEmail(email))
      && (r.body.data.value["message"] == Str("Valid email format") <==> IsValidEmail(email))
      && (r.body.data.value["message"] == Str("Invalid email format") <==> !IsValidEmail(email))
  {
  }

  /** The fixtures of the backend tests: test@example.com is valid, invalid-email is not. */
  lemma ValidateEmailExamples(good: string, bad: string, responseTime: DateTime)
    requires Valid(responseTime) && good == "test@example.com" && bad == "invalid-email"
    ensures ValidateEmail(Some(good), responseTime).body.data.value["isValid"] == Bool(true)
    ensures var d := ValidateEmail(Some(bad), responseTime).body.data.value;
      d["isValid"] == Bool(false) && d["message"] == Str("Invalid email format")
  {
    AcceptsTestAddress(good);
    RejectsWithoutAt(bad);
    ValidateEmailWithEmail(good, responseTime);
    ValidateEmailWithEmail(bad, responseTime);
  }

  /** The aggregate endpoint always succeeds and reports the fixed validations and user 1. */
  lemma AllReports(hour: int, greetingTime: DateTime, userTime: DateTime, responseTime: DateTime)
    requires Valid(greetingTime) && Valid(userTime) && Valid(responseTime)
    ensures var r := All(hour, greetingTime, userTime, responseTime);
      && r.status == Ok && r.body.success
      && r.body.message == Some("All shared functions tested successfully")
      && r.body.data == Some(map[
           "greeting" := Str(GenerateGreeting("Developer", hour, greetingTime)),
           "user" := Obj(UserFields(UserData(1, "Bob", "bob1@test.org", FormatTimestamp(userTime)))),
           "emailValidation" := Obj(map["valid" := Bool(true), "invalid" := Bool(false)]),
           TimestampKey := Str(FormatTimestamp(responseTime))])
  {
    EmailExamples();
    MockUserExample(1, userTime);
  }
}
