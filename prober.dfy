/**
  The internet check (`check_internet_simple`): one ping to a public address, then a DNS lookup
  of a public host name, then an HTTP GET of a public page, stopping at the first that succeeds.
  Each stage's outcome is given; the result records which stages ran.
 */
module Prober {
  import opened Text
  import opened Netsh

  /** What the HTTP request gave: a status code, or an exception (timeout, refused, ...). */
  datatype HttpReply = Status(code: int) | HttpRaised

  /** What each stage would see if it ran: the ping command's result, whether the host name
      resolves, and the HTTP reply. */
  datatype ProbeInputs = ProbeInputs(ping: CommandResult, resolves: bool, http: HttpReply)

  datatype Stage = Ping | Dns | Http

  /** The stages in the order they are tried. */
  const Stages: seq<Stage> := [Ping, Dns, Http]

  /** A stage reports internet: the ping printed `Reply from`, the name resolved, or the page
      answered with status 200. */
  predicate Passes(p: ProbeInputs, s: Stage)
  {
    match s
    case Ping => p.ping.Ran? && Contains(p.ping.stdout, "Reply from")
    case Dns => p.resolves
    case Http => p.http == Status(200)
  }

  /** The verdict and the stages that ran to reach it. */
  datatype ProbeReport = ProbeReport(online: bool, ran: seq<Stage>)

  /** `check_internet_simple`. The check is online exactly when some stage passes; the stages run
      in order, every stage but the last one run failed, and a stage is skipped only when an
      earlier one passed. */
  function CheckInternet(p: ProbeInputs): (r: ProbeReport)
    ensures r.online <==> Passes(p, Ping) || Passes(p, Dns) || Passes(p, Http)
    ensures 1 <= |r.ran| <= 3 && r.ran == Stages[..|r.ran|]
    ensures forall i :: 0 <= i < |r.ran| - 1 ==> !Passes(p, r.ran[i])
    ensures r.online <==> Passes(p, r.ran[|r.ran| - 1])
    ensures |r.ran| < 3 ==> r.online
  {
    if p.ping.Ran? && Contains(p.ping.stdout, "Reply from") then
      ProbeReport(true, [Ping])
    else if p.resolves then
      ProbeReport(true, [Ping, Dns])
    else
      match p.http
      case Status(code) => ProbeReport(code == 200, [Ping, Dns, Http])
      case HttpRaised => ProbeReport(false, [Ping, Dns, Http])
  }

  /** A ping that answers settles the check on its own: DNS and HTTP never run. */
  lemma PingShortCircuits(p: ProbeInputs)
    requires Passes(p, Ping)
    ensures CheckInternet(p) == ProbeReport(true, [Ping])
  {
  }

  /** A failed ping followed by a name that resolves settles the check: HTTP never runs. */
  lemma DnsShortCircuits(p: ProbeInputs)
    requires !Passes(p, Ping) && Passes(p, Dns)
    ensures CheckInternet(p) == ProbeReport(true, [Ping, Dns])
  {
  }

  /** When ping and DNS fail, the verdict is the HTTP status being 200; an exception is offline. */
  lemma HttpDecides(p: ProbeInputs)
    requires !Passes(p, Ping) && !Passes(p, Dns)
    ensures CheckInternet(p).ran == Stages
    ensures CheckInternet(p).online <==> p.http.Status? && p.http.code == 200
  {
  }
}
