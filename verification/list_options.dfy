/** Positional argument and validation of the scheduler's list command
    (`RPC::Client::Scheduler::List::OptionParser`).  The status switches and
    `list_all?` live with the listing they steer, in `Listing`.  The
    liveness ping is a parameter: it answers `None` when the scheduler
    responds and the exception's "Class: message" text when it does not. */
module ListOptions {
  import opened Wrappers

  const MissingUrl := "Missing 'scheduler_URL'."

  /** The two error lines printed when the ping fails. */
  function Unreachable(url: string, error: string): string {
    "Could not reach Scheduler at: " + url + "\n" + error
  }

  /** `after_parse`: the scheduler URL is the first positional argument,
      `nil` when there is none. */
  function SchedulerUrl(args: seq<string>): (url: Option<string>)
    ensures url.None? <==> |args| == 0
    ensures url.Some? ==> url.value == args[0]
  {
    if |args| == 0 then None else Some(args[0])
  }

  /** `validate`: the URL must be given and must answer the ping; the
      accepted value is the URL. */
  function Validate(url: Option<string>, ping: string -> Option<string>): (r: Result<string>)
    ensures r.Ok? <==> url.Some? && ping(url.value).None?
    ensures r.Ok? ==> r.value == url.value
    ensures r.Failure? ==> r.exitStatus == 1
    ensures url.None? ==> r.message == MissingUrl
    ensures url.Some? && ping(url.value).Some? ==>
              r.message == Unreachable(url.value, ping(url.value).value)
  {
    match url
    case None => Failure(MissingUrl, 1)
    case Some(u) =>
      match ping(u)
      case Some(e) => Failure(Unreachable(u, e), 1)
      case None => Ok(u)
  }

  /** A missing URL is reported before any ping: the outcome is the same
      whatever the network would have answered. */
  lemma MissingUrlBeforePing(args: seq<string>, ping1: string -> Option<string>, ping2: string -> Option<string>)
    requires |args| == 0
    ensures Validate(SchedulerUrl(args), ping1) == Validate(SchedulerUrl(args), ping2)
    ensures Validate(SchedulerUrl(args), ping1) == Failure(MissingUrl, 1)
  {
  }
}
