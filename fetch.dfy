/**
 * How one finished request of `fetchRepos` is classified: the HTTP status
 * decides between three distinct errors and success, a thrown error keeps
 * its message, and a success keeps only the non-fork repositories.
 */
module Fetch {
  import opened Repos

  /** What the request delivers once it settles. */
  datatype Response =
    | HttpResponse(status: int, statusText: string, data: seq<Repo>)
      /** `fetch` rejected, or reading the body threw; `message` is the error's message. */
    | Thrown(message: string)

  /**
   * The text of the error banner, by kind; `NoNotice` is the empty string
   * (no banner). The wording of each message is not modelled, only what it
   * is built from.
   */
  datatype Notice =
    | NoNotice
    | EmptyUsername
    | UserNotFound(user: string)
    | RateLimited
    | LoadFailed(status: int, statusText: string)
    | ThrownMessage(message: string)
    | ConnectionError
    | NoOriginalRepos(user: string)

  /** `response.ok`. */
  predicate IsOk(status: int) {
    200 <= status <= 299
  }

  datatype Outcome = Loaded(repos: seq<Repo>) | Failed(notice: Notice)

  /** The `try`/`catch` of `fetchRepos` for one response, before setting state. */
  function Classify(user: string, response: Response): (o: Outcome)
    ensures o.Loaded? <==> response.HttpResponse? && IsOk(response.status)
    ensures o.Loaded? ==> forall r :: r in o.repos <==> r in response.data && !r.fork
    ensures o.Failed? ==> o.notice != NoNotice && !o.notice.EmptyUsername? && !o.notice.NoOriginalRepos?
  {
    match response
    case HttpResponse(status, statusText, data) =>
      if status == 404 then Failed(UserNotFound(user))
      else if status == 403 then Failed(RateLimited)
      else if !IsOk(status) then Failed(LoadFailed(status, statusText))
      else (NonForksSpec(data); Loaded(NonForks(data)))
    case Thrown(message) =>
      Failed(if message != "" then ThrownMessage(message) else ConnectionError)
  }

  /** The status table: 404, 403 and every other non-ok status give their own error. */
  lemma ClassifyStatus(user: string, status: int, statusText: string, data: seq<Repo>)
    ensures status == 404 ==> Classify(user, HttpResponse(status, statusText, data)) == Failed(UserNotFound(user))
    ensures status == 403 ==> Classify(user, HttpResponse(status, statusText, data)) == Failed(RateLimited)
    ensures status != 404 && status != 403 && !IsOk(status) ==>
              Classify(user, HttpResponse(status, statusText, data)) == Failed(LoadFailed(status, statusText))
    ensures IsOk(status) ==> Classify(user, HttpResponse(status, statusText, data)) == Loaded(NonForks(data))
  {
  }

  /** The three HTTP errors are distinct: the notice of a failed HTTP response determines its status. */
  lemma FailedStatusDetermined(user: string, a: Response, b: Response)
    requires a.HttpResponse? && b.HttpResponse? && !IsOk(a.status) && !IsOk(b.status)
    requires Classify(user, a) == Classify(user, b)
    ensures a.status == b.status
  {
  }

  /** A thrown error shows its own message, or the connection-error text when it has none. */
  lemma ThrownKeepsMessage(user: string, message: string)
    ensures Classify(user, Thrown(message)) == Failed(if message == "" then ConnectionError else ThrownMessage(message))
  {
  }
}
