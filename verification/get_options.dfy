/** Positional arguments and validation of the scheduler's get command
    (`RPC::Client::Scheduler::Get::OptionParser`): a scheduler URL followed
    by the scan ids to fetch.  The liveness ping is a parameter, as in
    `ListOptions`. */
module GetOptions {
  import opened Wrappers
  import Seqs
  import ListOptions

  datatype Parsed = Parsed(url: Option<string>, ids: seq<string>)

  /** Before `after_parse` runs there is no URL and no id. */
  const Initial := Parsed(None, [])

  const MissingIds := "Missing scan IDs."

  /** `after_parse`: the first argument is the URL, the rest are the ids
      with repeats removed. */
  function AfterParse(args: seq<string>): (p: Parsed)
    ensures p.url == ListOptions.SchedulerUrl(args)
    ensures |args| <= 1 <==> p.ids == []
    ensures Seqs.KeyDistinct(p.ids, Seqs.Identity)
    ensures forall i | 1 <= i < |args| :: args[i] in p.ids
    ensures forall i | 0 <= i < |p.ids| :: p.ids[i] in args[1..]
  {
    if |args| == 0 then Initial
    else
      var ids := Seqs.UniqBy(args[1..], Seqs.Identity);
      assert |args| > 1 ==> args[1] == args[1..][0] && ids != [];
      assert forall i | 1 <= i < |args| :: args[i] == args[1..][i - 1];
      Parsed(Some(args[0]), ids)
  }

  /** Every id is kept at its first occurrence and the ids keep the order
      in which they were first given. */
  lemma IdsInFirstOrder(args: seq<string>)
    requires |args| >= 1
    ensures Seqs.KeptFirst(args[1..], Seqs.Identity, AfterParse(args).ids)
    ensures Seqs.InFirstOrder(args[1..], Seqs.Identity, AfterParse(args).ids)
  {
    Seqs.UniqByFirst(args[1..], Seqs.Identity);
  }

  /** `validate`: URL first, then ids, then the ping. */
  function Validate(p: Parsed, ping: string -> Option<string>): (r: Result<Parsed>)
    ensures r.Ok? <==> p.url.Some? && p.ids != [] && ping(p.url.value).None?
    ensures r.Ok? ==> r.value == p
    ensures r.Failure? ==> r.exitStatus == 1
    ensures p.url.None? ==> r.message == ListOptions.MissingUrl
    ensures p.url.Some? && p.ids == [] ==> r.message == MissingIds
    ensures p.url.Some? && p.ids != [] && ping(p.url.value).Some? ==>
              r.message == ListOptions.Unreachable(p.url.value, ping(p.url.value).value)
  {
    if p.url.None? then Failure(ListOptions.MissingUrl, 1)
    else if p.ids == [] then Failure(MissingIds, 1)
    else
      match ListOptions.Validate(p.url, ping)
      case Failure(m, status) => Failure(m, status)
      case Ok(_) => Ok(p)
  }

  /** Parsing then validating: no argument reports the missing URL, a lone
      URL reports the missing ids, and neither consults the network. */
  lemma ParseThenValidate(args: seq<string>, ping: string -> Option<string>)
    ensures |args| == 0 ==> Validate(AfterParse(args), ping) == Failure(ListOptions.MissingUrl, 1)
    ensures |args| == 1 ==> Validate(AfterParse(args), ping) == Failure(MissingIds, 1)
    ensures Validate(AfterParse(args), ping).Ok? <==> |args| >= 2 && ping(args[0]).None?
  {
  }
}
