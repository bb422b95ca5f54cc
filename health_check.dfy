/**
 * The order of checks in `main` and the exit status it ends with. Every network call is
 * replaced by its outcome, given as input; a Ctrl-C is given as the step it interrupts.
 */
module HealthCheck {
  import opened Wrappers
  import opened EnvFile
  import opened JamfConfig

  /** What `get_oauth_token` did: raised (an HTTP error, a transport error, a body that is
      not JSON), or returned the `access_token` field, which may be absent. */
  datatype TokenOutcome = TokenRaised | TokenReturned(token: Option<string>)

  /** What a GET request did: answered with JSON, or raised. */
  datatype ProbeOutcome = ProbeSucceeded | ProbeRaised

  /** The steps of `main`, in the order they run. */
  datatype Step = LoadEnv | CheckConfig | RequestToken | ProbeVersion | ProbeListing

  /** How a step ended: it passed, it failed and stopped the run, it failed and the run went
      on, or the operator interrupted it. */
  datatype Verdict = Passed | Failed | Tolerated | Interrupted

  datatype StepResult = StepResult(step: Step, verdict: Verdict)

  /** A request sent: the POST for a token, or an authenticated GET; each names the base URL
      and the path it is resolved against. */
  datatype Request =
    | TokenPost(base: string, path: string, body: string)
    | ApiGet(base: string, path: string, bearer: string)

  datatype Inputs = Inputs(
    envFile: Option<seq<string>>,
    environ: Env,
    token: TokenOutcome,
    version: ProbeOutcome,
    listing: ProbeOutcome,
    interrupt: Option<Step>)

  /** The steps run with their verdicts, the requests sent, and the exit status. */
  datatype Report = Report(trace: seq<StepResult>, requests: seq<Request>, exitCode: int)

  const TokenPath := "/api/oauth/token"
  const VersionPath := "/api/v1/jamf-pro-version"
  const ListingPath := "/api/v1/computer-groups"

  const Steps := [LoadEnv, CheckConfig, RequestToken, ProbeVersion, ProbeListing]

  function Rank(s: Step): nat {
    match s
    case LoadEnv => 0
    case CheckConfig => 1
    case RequestToken => 2
    case ProbeVersion => 3
    case ProbeListing => 4
  }

  /** What decides the course of `main` besides the configuration: whether the file was
      found, what each network call did, and which step (if any) the operator interrupts. */
  datatype Outcomes = Outcomes(
    fileFound: bool,
    token: TokenOutcome,
    version: ProbeOutcome,
    listing: ProbeOutcome,
    interrupt: Option<Step>)

  /** The environment after the file is loaded (the file's absence stops the run first). */
  function LoadedEnv(i: Inputs): Env {
    ApplyLines(i.environ, i.envFile.GetOr([]))
  }

  /** The configuration `main` reads once the file is loaded. */
  function ConfigOf(i: Inputs): Config {
    ReadConfig(LoadedEnv(i))
  }

  function OutcomesOf(i: Inputs): Outcomes {
    Outcomes(i.envFile.Some?, i.token, i.version, i.listing, i.interrupt)
  }

  /** The step runs to its end: no interrupt comes while it or an earlier step runs. */
  predicate Completes(o: Outcomes, s: Step) {
    o.interrupt.None? || Rank(s) < Rank(o.interrupt.value)
  }

  /** `if token:` — the token counts only when present and non-empty. */
  predicate TokenObtained(t: TokenOutcome) {
    t.TokenReturned? && t.token.Some? && t.token.value != ""
  }

  /** The run exits with status 1 exactly when some step that is fatal fails before the
      operator interrupts: the file is missing, the configuration is incomplete, no
      non-empty token comes back, or the version probe raises. */
  predicate FailsFatally(o: Outcomes, c: Config) {
    || (!o.fileFound && Completes(o, LoadEnv))
    || (!Complete(c) && Completes(o, CheckConfig))
    || (!TokenObtained(o.token) && Completes(o, RequestToken))
    || (o.version.ProbeRaised? && Completes(o, ProbeVersion))
  }

  /** The failure that ends the run at step `s`: the file is missing, the configuration is
      incomplete, no non-empty token comes back, or the version probe raises. The listing
      has no fatal failure. */
  predicate StepFails(o: Outcomes, c: Config, s: Step) {
    match s
    case LoadEnv => !o.fileFound
    case CheckConfig => !Complete(c)
    case RequestToken => !TokenObtained(o.token)
    case ProbeVersion => o.version.ProbeRaised?
    case ProbeListing => false
  }

  /**
   * How `main` ends, as a property of the step it stops at and the verdict there: every
   * earlier step ran to its end without a fatal failure; the run stops on a failure exactly
   * when some fatal step fails before an interrupt, and then at a step whose failure holds;
   * it stops on an interrupt exactly when the step the interrupt hits is reached; only the
   * listing can pass or be tolerated, and it is tolerated exactly when it raises without
   * being interrupted.
   */
  predicate StopsAsMainDoes(o: Outcomes, c: Config, h: StepResult) {
    && (forall s :: Rank(s) < Rank(h.step) ==> Completes(o, s) && !StepFails(o, c, s))
    && (h.verdict == Failed <==> FailsFatally(o, c))
    && (h.verdict == Failed ==> StepFails(o, c, h.step))
    && (h.verdict == Interrupted <==> o.interrupt == Some(h.step))
    && (h.verdict == Passed ==> h.step == ProbeListing)
    && (h.verdict == Tolerated <==> h.step == ProbeListing && o.listing.ProbeRaised? && o.interrupt != Some(ProbeListing))
  }

  /**
   * Where `main` stops and how: the if-chain of its body, one step after the other, each
   * fatal failure ending the run with `sys.exit(1)`, an interrupt ending it with 0, and the
   * listing probe ending it either way. It gets past the configuration only with a loaded
   * file and a complete configuration, past the token only with a non-empty token, and
   * reaches the listing only after the version probe succeeded.
   */
  function Halt(o: Outcomes, c: Config): (h: StepResult)
    ensures StopsAsMainDoes(o, c, h)
    ensures Rank(h.step) >= 1 ==> o.fileFound
    ensures Rank(h.step) >= 2 ==> Complete(c)
    ensures Rank(h.step) >= 3 ==> TokenObtained(o.token)
    ensures Rank(h.step) == 4 ==> o.version.ProbeSucceeded?
  {
    if o.interrupt == Some(LoadEnv) then StepResult(LoadEnv, Interrupted)
    else if !o.fileFound then StepResult(LoadEnv, Failed)
    else if o.interrupt == Some(CheckConfig) then StepResult(CheckConfig, Interrupted)
    else if !Complete(c) then StepResult(CheckConfig, Failed)
    else if o.interrupt == Some(RequestToken) then StepResult(RequestToken, Interrupted)
    else if !TokenObtained(o.token) then StepResult(RequestToken, Failed)
    else if o.interrupt == Some(ProbeVersion) then StepResult(ProbeVersion, Interrupted)
    else if o.version.ProbeRaised? then StepResult(ProbeVersion, Failed)
    else if o.interrupt == Some(ProbeListing) then StepResult(ProbeListing, Interrupted)
    else if o.listing.ProbeRaised? then StepResult(ProbeListing, Tolerated)
    else StepResult(ProbeListing, Passed)
  }

  /** The contract of `Halt` leaves no choice: any stopping step and verdict that end the
      run as `main` does are the ones `Halt` gives. */
  lemma {:induction false} HaltDetermined(o: Outcomes, c: Config, h: StepResult)
    requires StopsAsMainDoes(o, c, h)
    ensures h == Halt(o, c)
  {
    var g := Halt(o, c);
    // Neither result can stop before the other: the earlier step would have to both
    // complete without a fatal failure and stop the run.
    assert Rank(h.step) < Rank(g.step) ==> Completes(o, h.step) && !StepFails(o, c, h.step);
    assert Rank(g.step) < Rank(h.step) ==> Completes(o, g.step) && !StepFails(o, c, g.step);
    assert h.step == g.step;
  }

  /** The token `main` goes on with; only read once a non-empty token was obtained. */
  function Bearer(t: TokenOutcome): string {
    if t.TokenReturned? && t.token.Some? then t.token.value else ""
  }

  /** The requests of the three network steps, in order, against the configured URL. */
  function NetworkRequests(c: Config, bearer: string): seq<Request> {
    [ TokenPost(c.url, TokenPath, TokenRequestBody(c.clientId, c.clientSecret)),
      ApiGet(c.url, VersionPath, bearer),
      ApiGet(c.url, ListingPath, bearer) ]
  }

  /** How many network steps got as far as their request: those passed over, plus the step
      `main` stops at unless the interrupt came while it ran. */
  function RequestsSent(h: StepResult): nat {
    if Rank(h.step) < 2 then 0
    else if h.verdict == Interrupted then Rank(h.step) - 2
    else Rank(h.step) - 1
  }

  /**
   * One run of the tester. The trace lists the steps in the order of `main`, every one but
   * the last passed; the run exits with 1 exactly when a fatal step fails before an
   * interrupt and with 0 otherwise; the token is requested only with a loaded file and a
   * complete configuration, with exactly the body built from the configured credentials;
   * every GET carries the obtained, non-empty token; the listing is fetched only after the
   * version probe succeeded; and every request goes to the configured URL.
   */
  function Run(o: Outcomes, c: Config): (r: Report)
    ensures r.exitCode == 0 || r.exitCode == 1
    ensures r.exitCode == 1 <==> FailsFatally(o, c)
    ensures 1 <= |r.trace| <= |Steps|
    ensures forall k :: 0 <= k < |r.trace| ==> r.trace[k].step == Steps[k]
    ensures forall k :: 0 <= k < |r.trace| - 1 ==> r.trace[k].verdict == Passed
    ensures r.trace[|r.trace| - 1] == Halt(o, c)
    ensures |r.requests| <= 3
    ensures forall k :: 0 <= k < |r.requests| ==> r.requests[k].base == c.url
    ensures |r.requests| > 0 ==>
      && o.fileFound && Complete(c)
      && r.requests[0] == TokenPost(c.url, TokenPath, TokenRequestBody(c.clientId, c.clientSecret))
    ensures forall k :: 1 <= k < |r.requests| ==>
      TokenObtained(o.token) && r.requests[k] == ApiGet(c.url, if k == 1 then VersionPath else ListingPath, o.token.token.value)
    ensures |r.requests| == 3 ==> o.version.ProbeSucceeded?
    ensures Rank(Halt(o, c).step) < 2 ==> r.requests == []
    ensures Rank(Halt(o, c).step) >= 2 && Halt(o, c).verdict != Interrupted ==> |r.requests| == Rank(Halt(o, c).step) - 1
    ensures Rank(Halt(o, c).step) >= 2 && Halt(o, c).verdict == Interrupted ==> |r.requests| == Rank(Halt(o, c).step) - 2
    ensures o.interrupt.None? && !FailsFatally(o, c) ==>
      && |r.trace| == |Steps| && |r.requests| == 3
      && r.trace[|Steps| - 1].verdict == (if o.listing.ProbeRaised? then Tolerated else Passed)
  {
    var h := Halt(o, c);
    var passed := seq(Rank(h.step), k requires 0 <= k < Rank(h.step) => StepResult(Steps[k], Passed));
    var requests := NetworkRequests(c, Bearer(o.token))[..RequestsSent(h)];
    Report(passed + [h], requests, if h.verdict == Failed then 1 else 0)
  }

  /** The whole run on concrete inputs: the file loaded into the environment, the
      configuration read from it, and `main` run on that configuration. */
  function RunCheck(i: Inputs): Report {
    Run(OutcomesOf(i), ConfigOf(i))
  }

  /** A run that loads the file, has a complete configuration and a non-empty token, and is
      not interrupted. */
  predicate HealthyStart(o: Outcomes, c: Config) {
    o.fileFound && Complete(c) && TokenObtained(o.token) && o.interrupt.None?
  }

  /** Every step succeeds: all five steps pass, all three requests go out, exit status 0. */
  lemma {:induction false} AllStepsPass(o: Outcomes, c: Config)
    requires HealthyStart(o, c) && o.version.ProbeSucceeded? && o.listing.ProbeSucceeded?
    ensures var r := Run(o, c);
      && r.exitCode == 0 && |r.requests| == 3
      && r.trace == [StepResult(LoadEnv, Passed), StepResult(CheckConfig, Passed),
                     StepResult(RequestToken, Passed), StepResult(ProbeVersion, Passed),
                     StepResult(ProbeListing, Passed)]
  {
  }

  /** The version probe raises: the run stops there with status 1 and never fetches the
      listing. */
  lemma {:induction false} VersionProbeFails(o: Outcomes, c: Config)
    requires HealthyStart(o, c) && o.version.ProbeRaised?
    ensures var r := Run(o, c);
      && r.exitCode == 1
      && r.trace == [StepResult(LoadEnv, Passed), StepResult(CheckConfig, Passed),
                     StepResult(RequestToken, Passed), StepResult(ProbeVersion, Failed)]
      && forall k :: 0 <= k < |r.requests| ==> r.requests[k] != ApiGet(c.url, ListingPath, o.token.token.value)
  {
  }

  /** The listing probe raises after the version probe succeeded: the failure is recorded
      and the run still exits with status 0. */
  lemma {:induction false} ListingProbeTolerated(o: Outcomes, c: Config)
    requires HealthyStart(o, c) && o.version.ProbeSucceeded? && o.listing.ProbeRaised?
    ensures var r := Run(o, c);
      && r.exitCode == 0 && |r.requests| == 3
      && r.trace == [StepResult(LoadEnv, Passed), StepResult(CheckConfig, Passed),
                     StepResult(RequestToken, Passed), StepResult(ProbeVersion, Passed),
                     StepResult(ProbeListing, Tolerated)]
  {
  }

  /** A missing file ends the run at once with status 1, before any request. */
  lemma {:induction false} MissingFileFails(o: Outcomes, c: Config)
    requires !o.fileFound && o.interrupt != Some(LoadEnv)
    ensures var r := Run(o, c);
      r.exitCode == 1 && r.trace == [StepResult(LoadEnv, Failed)] && r.requests == []
  {
  }
}
