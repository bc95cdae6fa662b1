/**
  The POST handler of src/app/api/quiz/route.ts, which starts a quiz-solving
  run on request: the request body is checked in a fixed order (valid JSON,
  the shared secret, the two required fields) and the first failed check
  decides the reply. Only a request that passes all three starts a run.
*/
module TriggerRoute {
  import opened Wrappers
  import opened JsValues

  /** The secret used when `QUIZ_SECRET` is unset or empty. */
  const DefaultSecret := "secret123"

  /** `SECRET_KEY`: the configured secret when it is non-empty, otherwise the default; never empty. */
  function SecretKey(configured: Option<string>): (key: string)
    ensures key != ""
    ensures configured.Some? && configured.value != "" ==> key == configured.value
    ensures configured.None? || configured.value == "" ==> key == DefaultSecret
  {
    if configured.Some? && configured.value != "" then configured.value else DefaultSecret
  }

  /** The arguments of the run the handler starts, as they were found in the body. */
  datatype RunRequest = RunRequest(email: Json, secret: Json, url: Json)

  /**
    What the handler does: a JSON reply (its status, whether its one field is
    `error` or `message`, and the text) together with the run it started, if
    any; or it throws, which happens when the body is the JSON value `null`.
  */
  datatype Reply =
    | Reply(status: nat, isError: bool, text: string, started: Option<RunRequest>)
    | Threw

  const InvalidJsonMsg := "Invalid JSON payload"
  const InvalidSecretMsg := "Invalid secret"
  const MissingFieldMsg := "Missing email or url"
  const InitiatedMsg := "Quiz solving process initiated"

  /**
    `POST`: `body` is the parsed request body (`None` when it is not JSON) and
    `key` the `SECRET_KEY`. A reply starts a run exactly when its status is 200,
    and every other reply is an error.
  */
  function HandlePost(body: Option<Json>, key: string): (r: Reply)
    ensures r.Reply? ==> (r.started.Some? <==> r.status == 200)
    ensures r.Reply? ==> (r.isError <==> r.status != 200)
    ensures r.Threw? <==> body == Some(JNull)
  {
    if body.None? then Reply(400, true, InvalidJsonMsg, None)
    else if body.value.JNull? then Threw
    else
      var v := body.value;
      var email, secret, url := Property(v, "email"), Property(v, "secret"), Property(v, "url");
      if secret != Some(JStr(key)) then Reply(403, true, InvalidSecretMsg, None)
      else if !Truthy(email) || !Truthy(url) then Reply(400, true, MissingFieldMsg, None)
      else Reply(200, false, InitiatedMsg, Some(RunRequest(email.value, secret.value, url.value)))
  }

  /** The secret check passes only for a string property equal to the key. */
  predicate SecretMatches(v: Json, key: string)
    requires !v.JNull?
  {
    Property(v, "secret") == Some(JStr(key))
  }

  /** A body that is not JSON gets 400 "Invalid JSON payload" and starts nothing. */
  lemma InvalidJsonRejected(key: string)
    ensures HandlePost(None, key) == Reply(400, true, InvalidJsonMsg, None)
  {
  }

  /**
    A wrong or missing secret gets 403 "Invalid secret" and starts nothing,
    whatever the other fields hold: the secret is checked first.
  */
  lemma WrongSecretRejected(v: Json, key: string)
    requires !v.JNull? && !SecretMatches(v, key)
    ensures HandlePost(Some(v), key) == Reply(403, true, InvalidSecretMsg, None)
  {
  }

  /** With the right secret, a missing or empty email or url gets 400 "Missing email or url". */
  lemma MissingFieldRejected(v: Json, key: string)
    requires !v.JNull? && SecretMatches(v, key)
    requires !Truthy(Property(v, "email")) || !Truthy(Property(v, "url"))
    ensures HandlePost(Some(v), key) == Reply(400, true, MissingFieldMsg, None)
  {
  }

  /**
    A run is started exactly when the body is a JSON object-like value with the
    right secret and a truthy email and url, and it is started with the body's
    own three values; the reply is then 200 "Quiz solving process initiated".
  */
  lemma AcceptedStartsRun(body: Option<Json>, key: string)
    ensures var r := HandlePost(body, key);
      (r.Reply? && r.started.Some?) <==>
        (body.Some? && !body.value.JNull? && SecretMatches(body.value, key)
         && Truthy(Property(body.value, "email")) && Truthy(Property(body.value, "url")))
    ensures var r := HandlePost(body, key);
      r.Reply? && r.started.Some? ==>
        && r == Reply(200, false, InitiatedMsg, r.started)
        && r.started.value == RunRequest(
          Property(body.value, "email").value, JStr(key), Property(body.value, "url").value)
  {
  }

  /**
    Because the key is never empty, a request that omits the secret or sends
    an empty one is refused, however the server is configured.
  */
  lemma EmptySecretAlwaysRejected(v: Json, configured: Option<string>)
    requires !v.JNull?
    requires Property(v, "secret").None? || Property(v, "secret") == Some(JStr(""))
    ensures HandlePost(Some(v), SecretKey(configured)) == Reply(403, true, InvalidSecretMsg, None)
  {
  }
}
