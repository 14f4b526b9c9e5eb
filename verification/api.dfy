/** The decision `apiCall` makes about a request: fail before sending when
    the base URL is missing, hand back the parsed body of a successful
    response, and otherwise turn the status, the endpoint and the error body
    into the message of the error it throws. Sending the request, the headers
    and the JSON decoding are not part of this model. */
module Api {
  import opened Wrappers
  import opened Text

  /** One entry of an error body's `errors` object: a message or a list of them. */
  datatype FieldErrors = Message(text: string) | Messages(texts: seq<string>)

  /** The fields of a failed response's JSON body that `apiCall` reads; a
      body that does not parse is the empty object, all fields absent. */
  datatype ErrorBody = ErrorBody(message: Option<string>, error: Option<string>, errors: Option<seq<FieldErrors>>)

  /** What the server answered: a status with the parsed body of a success
      and the error body of a failure, or a failure of the request itself. */
  datatype Reply<T> = Response(status: int, payload: T, errorBody: ErrorBody) | NetworkFailure(reason: string)

  const DishNotFound := "Dish not found. Please try a different dish name or check the spelling."
  const EmailInUse := "An account with this email already exists. Please use a different email or try logging in."
  const AuthenticationFailed := "Authentication failed. Please log in again."
  const AccessDenied := "Access denied. You don't have permission to perform this action."
  const ResourceNotFound := "Resource not found. Please check the URL and try again."
  const TooManyRequests := "Too many requests. Please wait a moment and try again."
  const InvalidEmail := "Please enter a valid email address."
  const ShortPassword := "Password must be at least 8 characters long."
  const TooFewServings := "Servings must be at least 0.1."
  const InvalidDishName := "Please enter a valid dish name."
  const BaseUrlMissing := "API base URL is not configured"
  const CaloriesEndpoint := "/get-calories"
  const RegisterEndpoint := "/auth/register"
  const LoginEndpoint := "/auth/login"

  /** A string JavaScript treats as true: present and not empty. */
  predicate Truthy(o: Option<string>) {
    o.Some? && o.value != ""
  }

  /** `o || fallback` on an optional string. */
  function OrElse(o: Option<string>, fallback: string): (r: string)
    ensures Truthy(o) ==> r == o.value
    ensures !Truthy(o) ==> r == fallback
  {
    if Truthy(o) then o.value else fallback
  }

  /** `o?.includes(q)`: false when the field is absent. */
  predicate Mentions(o: Option<string>, q: string) {
    o.Some? && Contains(o.value, q)
  }

  /** The body's message names one of the form fields a 400 answer is
      reworded for. */
  predicate NamesInputField(body: ErrorBody) {
    Mentions(body.message, "email") || Mentions(body.message, "password")
    || Mentions(body.message, "servings") || Mentions(body.message, "dish_name")
  }

  /** The message of the first entry of `errors`, as `new Error(...)` would
      hold it; an absent entry or an empty list gives the empty message. */
  function FirstFieldError(errors: seq<FieldErrors>): string {
    if errors == [] then ""
    else match errors[0]
      case Message(t) => t
      case Messages(ts) => if ts == [] then "" else ts[0]
  }

  /** The message thrown for a response whose status is not 2xx. */
  function ErrorMessage(endpoint: string, status: int, body: ErrorBody): (msg: string)
    ensures (status == 500 || status == 404) && endpoint == CaloriesEndpoint ==> msg == DishNotFound
    ensures status == 401 ==> msg == AuthenticationFailed
    ensures status == 403 ==> msg == AccessDenied
    ensures status == 404 && endpoint != CaloriesEndpoint ==> msg == ResourceNotFound
    ensures status == 429 ==> msg == TooManyRequests
    ensures status == 400 && Mentions(body.error, "Email already in use") ==> msg == EmailInUse
    ensures status == 400 && !Mentions(body.error, "Email already in use") && Mentions(body.message, "email") ==>
      msg == InvalidEmail
    ensures (status == 400 && !Mentions(body.error, "Email already in use") && !Mentions(body.message, "email")
             && Mentions(body.message, "password")) ==> msg == ShortPassword
    ensures (status == 400 && !Mentions(body.error, "Email already in use") && !Mentions(body.message, "email")
             && !Mentions(body.message, "password") && Mentions(body.message, "servings")) ==> msg == TooFewServings
    ensures (status == 400 && !Mentions(body.error, "Email already in use") && !Mentions(body.message, "email")
             && !Mentions(body.message, "password") && !Mentions(body.message, "servings")
             && Mentions(body.message, "dish_name")) ==> msg == InvalidDishName
    ensures status == 400 && !Mentions(body.error, "Email already in use") && !NamesInputField(body) ==>
      msg == OrElse(body.message, OrElse(body.error, "Invalid input. Please check your data."))
    ensures status == 409 && endpoint == RegisterEndpoint && Mentions(body.message, "email") ==> msg == EmailInUse
    ensures status == 409 && !(endpoint == RegisterEndpoint && Mentions(body.message, "email")) ==>
      msg == OrElse(body.message, "Conflict occurred. Please try again.")
    ensures status == 422 && body.errors.Some? ==> msg == FirstFieldError(body.errors.value)
    ensures status == 422 && body.errors.None? ==> msg == OrElse(body.message, "Validation failed. Please check your input.")
    ensures status !in {400, 401, 403, 404, 409, 422, 429} && !(status == 500 && endpoint == CaloriesEndpoint) ==>
      msg == OrElse(body.message, OrElse(body.error, "Request failed with status " + IntToString(status)))
  {
    if status == 500 && endpoint == CaloriesEndpoint then DishNotFound
    else if status == 404 && endpoint == CaloriesEndpoint then DishNotFound
    else if status == 400 then
      if Mentions(body.error, "Email already in use") then EmailInUse
      else if Mentions(body.message, "email") then InvalidEmail
      else if Mentions(body.message, "password") then ShortPassword
      else if Mentions(body.message, "servings") then TooFewServings
      else if Mentions(body.message, "dish_name") then InvalidDishName
      else OrElse(body.message, OrElse(body.error, "Invalid input. Please check your data."))
    else if status == 401 then AuthenticationFailed
    else if status == 403 then AccessDenied
    else if status == 404 then ResourceNotFound
    else if status == 409 then
      if endpoint == RegisterEndpoint && Mentions(body.message, "email") then EmailInUse
      else OrElse(body.message, "Conflict occurred. Please try again.")
    else if status == 422 then
      if body.errors.Some? then FirstFieldError(body.errors.value)
      else OrElse(body.message, "Validation failed. Please check your input.")
    else if status == 429 then TooManyRequests
    else OrElse(body.message, OrElse(body.error, "Request failed with status " + IntToString(status)))
  }

  /** The only way a failed response is reported with an empty message is a
      422 whose body carries an `errors` object with no usable first entry. */
  lemma ErrorMessageEmptyOnlyFromFieldErrors(endpoint: string, status: int, body: ErrorBody)
    ensures ErrorMessage(endpoint, status, body) == "" ==>
      status == 422 && body.errors.Some? && FirstFieldError(body.errors.value) == ""
  {
  }

  /** `apiCall(endpoint)` with the configured base URL and the server's reply. */
  function ApiCall<T>(baseUrl: Option<string>, endpoint: string, reply: Reply<T>): (r: Result<T, string>)
    ensures r.Success? <==> Truthy(baseUrl) && reply.Response? && 200 <= reply.status <= 299
    ensures r.Success? ==> r.value == reply.payload
    ensures !Truthy(baseUrl) ==> r == Failure(BaseUrlMissing)
    ensures Truthy(baseUrl) && reply.Response? && r.Failure? ==>
      r.error == ErrorMessage(endpoint, reply.status, reply.errorBody)
    ensures Truthy(baseUrl) && reply.NetworkFailure? ==> r == Failure(reply.reason)
  {
    if !Truthy(baseUrl) then Failure(BaseUrlMissing)
    else match reply
      case NetworkFailure(reason) => Failure(reason)
      case Response(status, payload, errorBody) =>
        if 200 <= status <= 299 then Success(payload)
        else Failure(ErrorMessage(endpoint, status, errorBody))
  }
}
