/** The branch operations of lib/git.js: starting a sprint, feature or
    hotfix branch, finishing a feature through a pull request, and
    finishing a sprint. Each is a function from the user's answers, the
    shell and the pull-request service to the session it produces. */
module GitFlow {
  import opened Wrappers
  import opened Workflow
  import Util
  import Remote
  import JsString

  const DetachedHead := "You are not in any branch (detached HEAD?)"
  /** `startSprint` ends its abort message with a full stop; the others do not. */
  const SprintAborted := "Operation aborted."

  /** The message of the TypeError Node raises when code calls a name that
      is undefined. */
  function NotAFunction(name: string): string
  {
    name + " is not a function"
  }

  // ----- starting a branch -----

  /** What distinguishes the three start operations: the prompts asked, the
      branch the new one is cut from, the new branch, and the abort message. */
  datatype StartPlan = StartPlan(questions: seq<Question>, base: string, target: string, abort: string)

  /** The body of `doStartSprint`, `doStartFeature` and `doStartHotfix`. */
  function AttemptBlock(base: string, target: string): seq<GitCommand>
  {
    [Checkout(base), ResetHard(RemoteBranch(base)), CreateAndCheckout(target), Push(target)]
  }

  /** Ask, fetch, then the attempt block under the stash-and-retry recovery. */
  function Start(plan: StartPlan, confirmStash: bool, run: Runner): Session
  {
    var fetched := Asked(plan.questions) + [Git(FetchAll)];
    match run(|fetched| - 1, FetchAll)
    case Err(m) => Session(fetched, Failed(m))
    case Ok(_) =>
      WithStashRetry(AttemptBlock(plan.base, plan.target), plan.abort, confirmStash, run, fetched)
  }

  function SprintPlan(a: Answers): StartPlan
  {
    StartPlan([ProjectAndSprint], "develop", SprintBranch(a.projectName, a.sprintNumber), SprintAborted)
  }

  function FeatureBranch(a: Answers): string
  {
    a.issueNumber + "-" + Util.DashCase(a.description)
  }

  function FeaturePlan(a: Answers): StartPlan
  {
    StartPlan([ProjectAndSprint, IssueAndFeature], SprintBranch(a.projectName, a.sprintNumber),
              FeatureBranch(a), Aborted)
  }

  function HotfixPlan(a: Answers): StartPlan
  {
    StartPlan([IssueAndHotfix], "master", "hotfix/" + a.issueNumber + "-" + Util.DashCase(a.description), Aborted)
  }

  /** `startSprint`: cut `{project}/sprint-{n}` from `develop`. */
  function StartSprint(a: Answers, run: Runner): Session
  {
    Start(SprintPlan(a), a.confirmStash, run)
  }

  /** `startFeature`: cut `{issue}-{slug}` from the sprint branch. */
  function StartFeature(a: Answers, run: Runner): Session
  {
    Start(FeaturePlan(a), a.confirmStash, run)
  }

  /** `startHotfix` as evidently intended: cut `hotfix/{issue}-{slug}` from
      `master`, asking for the issue and the hotfix description. */
  function StartHotfix(a: Answers, run: Runner): Session
  {
    Start(HotfixPlan(a), a.confirmStash, run)
  }

  /** `startHotfix` as written: its first statement calls a prompt that
      lib/inquirer.js does not define, so it throws before anything else. */
  function StartHotfixAsShipped(a: Answers, run: Runner): Session
  {
    Session([], Failed(NotAFunction("inquirer.askIssueNumberAndHotfix")))
  }

  /** The commands and prompts before the attempt block. */
  function StartPrefix(plan: StartPlan): seq<Event>
  {
    Asked(plan.questions) + [Git(FetchAll)]
  }

  /** With every command succeeding, a start asks its questions, fetches,
      and runs the attempt block once: check out and reset the base, create
      the target and push it. */
  lemma StartHappyPath(plan: StartPlan, confirmStash: bool, run: Runner)
    requires AllOk(run)
    ensures Start(plan, confirmStash, run)
      == Session(StartPrefix(plan) + Issued(AttemptBlock(plan.base, plan.target)), Done)
  {
    RunCommandsSucceed(AttemptBlock(plan.base, plan.target), run, StartPrefix(plan));
  }

  /** A failing fetch ends the operation before any checkout. */
  lemma StartFetchFails(plan: StartPlan, confirmStash: bool, run: Runner, m: string)
    requires run(|plan.questions|, FetchAll) == Err(m)
    ensures Start(plan, confirmStash, run) == Session(StartPrefix(plan), Failed(m))
  {
  }

  /** An error of the reset that is not a checkout conflict is rethrown at
      once: no stash prompt, no stash, no branch created. */
  lemma StartResetErrorIsRethrown(plan: StartPlan, confirmStash: bool, run: Runner, m: string)
    requires var k := |plan.questions| + 1;
      run(k - 1, FetchAll).Ok? && run(k, Checkout(plan.base)).Ok?
      && run(k + 1, ResetHard(RemoteBranch(plan.base))) == Err(m) && !IsConflict(m)
    ensures Start(plan, confirmStash, run)
      == Session(StartPrefix(plan) + [Git(Checkout(plan.base)), Git(ResetHard(RemoteBranch(plan.base)))], Failed(m))
  {
    var block := AttemptBlock(plan.base, plan.target);
    var t1 := StartPrefix(plan) + [Git(Checkout(plan.base))];
    assert RunCommands(block, run, StartPrefix(plan)) == RunCommands(block[1..], run, t1);
    assert block[1..][0] == ResetHard(RemoteBranch(plan.base));
    assert RunCommands(block[1..], run, t1) == Step(t1 + [Git(ResetHard(RemoteBranch(plan.base)))], Some(m));
  }

  /** A conflicting checkout the user declines to stash aborts with the
      operation's abort message, right after the stash prompt. */
  lemma StartDeclinedStash(plan: StartPlan, run: Runner, m: string)
    requires var k := |plan.questions| + 1;
      run(k - 1, FetchAll).Ok? && run(k, Checkout(plan.base)) == Err(m) && IsConflict(m)
    ensures Start(plan, false, run)
      == Session(StartPrefix(plan) + [Git(Checkout(plan.base)), Ask(ConfirmStash)], Failed(plan.abort))
  {
  }

  /** A conflicting checkout the user agrees to stash is followed by
      `git stash` and a complete second attempt. */
  lemma StartStashThenRetry(plan: StartPlan, run: Runner, m: string)
    requires var k := |plan.questions| + 1;
      run(k, Checkout(plan.base)) == Err(m) && IsConflict(m)
      && forall n, c :: n != k ==> run(n, c).Ok?
    ensures Start(plan, true, run)
      == Session(StartPrefix(plan) + [Git(Checkout(plan.base)), Ask(ConfirmStash), Git(Stash)]
                   + Issued(AttemptBlock(plan.base, plan.target)), Done)
  {
    var block := AttemptBlock(plan.base, plan.target);
    var stashed := StartPrefix(plan) + [Git(Checkout(plan.base)), Ask(ConfirmStash), Git(Stash)];
    RunCommandsSucceed(block, run, stashed);
    assert StartPrefix(plan) + [Git(Checkout(plan.base))] + [Ask(ConfirmStash)] + [Git(Stash)] == stashed;
  }

  /** The block is retried once only: an error of the second attempt,
      even another conflict, ends the operation. */
  lemma StartSecondConflictIsFinal(plan: StartPlan, run: Runner, m1: string, m2: string)
    requires var k := |plan.questions| + 1;
      run(k - 1, FetchAll).Ok? && run(k, Checkout(plan.base)) == Err(m1) && IsConflict(m1)
      && run(k + 2, Stash).Ok? && run(k + 3, Checkout(plan.base)) == Err(m2)
    ensures Start(plan, true, run)
      == Session(StartPrefix(plan) + [Git(Checkout(plan.base)), Ask(ConfirmStash), Git(Stash), Git(Checkout(plan.base))],
                 Failed(m2))
  {
    assert StartPrefix(plan) + [Git(Checkout(plan.base))] + [Ask(ConfirmStash)] + [Git(Stash)] + [Git(Checkout(plan.base))]
      == StartPrefix(plan) + [Git(Checkout(plan.base)), Ask(ConfirmStash), Git(Stash), Git(Checkout(plan.base))];
  }

  /** A start that succeeds has run the whole attempt block last: it ends
      by pushing the new branch it created from the freshly reset base. */
  lemma StartSucceedsByPushing(plan: StartPlan, confirmStash: bool, run: Runner)
    ensures var r := Start(plan, confirmStash, run);
      |r.trace| >= |StartPrefix(plan)| && r.trace[..|StartPrefix(plan)|] == StartPrefix(plan)
      && (r.outcome.Done? ==>
            |r.trace| >= |StartPrefix(plan)| + 4
            && r.trace[|r.trace| - 4..] == Issued(AttemptBlock(plan.base, plan.target))
            && r.trace[|r.trace| - 1] == Git(Push(plan.target)))
  {
    var fetched := StartPrefix(plan);
    if run(|fetched| - 1, FetchAll).Ok? {
      WithStashRetryExtends(AttemptBlock(plan.base, plan.target), plan.abort, confirmStash, run, fetched);
    }
  }

  /** Whatever the shell replies, a start stashes at most once and asks
      about stashing at most once. */
  lemma StartRetriesOnce(plan: StartPlan, confirmStash: bool, run: Runner)
    requires ConfirmStash !in plan.questions
    ensures Count(Start(plan, confirmStash, run).trace, Git(Stash)) <= 1
    ensures Count(Start(plan, confirmStash, run).trace, Ask(ConfirmStash)) <= 1
    ensures !confirmStash ==> Count(Start(plan, confirmStash, run).trace, Git(Stash)) == 0
  {
    var fetched := StartPrefix(plan);
    StartPrefixHasNoStash(plan);
    WithStashRetryRetriesOnce(AttemptBlock(plan.base, plan.target), plan.abort, confirmStash, run, fetched);
  }

  /** The recovery of a start, for every shell, once the fetch succeeded:
      an error of any command of the attempt block that lacks the conflict
      text is rethrown right after that command; a conflict the user
      declines aborts right after the stash prompt; the prompt is asked
      exactly when the first attempt hits a conflict, and `git stash` is
      issued exactly when the user then says yes. */
  lemma StartRecovery(plan: StartPlan, confirmStash: bool, run: Runner)
    requires ConfirmStash !in plan.questions
    requires run(|plan.questions|, FetchAll).Ok?
    ensures var first := RunCommands(AttemptBlock(plan.base, plan.target), run, StartPrefix(plan));
      var conflict := first.failure.Some? && IsConflict(first.failure.value);
      var r := Start(plan, confirmStash, run);
      (first.failure.Some? && !conflict ==> r == Session(first.trace, Failed(first.failure.value)))
      && (conflict && !confirmStash ==> r == Session(first.trace + [Ask(ConfirmStash)], Failed(plan.abort)))
      && (Ask(ConfirmStash) in r.trace <==> conflict)
      && (Git(Stash) in r.trace <==> conflict && confirmStash)
  {
    var fetched := StartPrefix(plan);
    var block := AttemptBlock(plan.base, plan.target);
    var r := Start(plan, confirmStash, run);
    assert r == WithStashRetry(block, plan.abort, confirmStash, run, fetched);
    StartPrefixHasNoStash(plan);
    WithStashRetryCases(block, plan.abort, confirmStash, run, fetched);
    WithStashRetryAsksIffConflict(block, plan.abort, confirmStash, run, fetched);
    CountPositive(r.trace, Ask(ConfirmStash));
    CountPositive(r.trace, Git(Stash));
  }

  /** Nothing before the attempt block stashes or asks about stashing. */
  lemma StartPrefixHasNoStash(plan: StartPlan)
    requires ConfirmStash !in plan.questions
    ensures Count(StartPrefix(plan), Git(Stash)) == 0
    ensures Count(StartPrefix(plan), Ask(ConfirmStash)) == 0
  {
    var fetched := StartPrefix(plan);
    assert Git(Stash) !in fetched && Ask(ConfirmStash) !in fetched by {
      forall i | 0 <= i < |plan.questions|
        ensures Asked(plan.questions)[i] != Ask(ConfirmStash)
      {
        assert plan.questions[i] != ConfirmStash;
      }
    }
    CountAbsent(fetched, Git(Stash));
    CountAbsent(fetched, Ask(ConfirmStash));
  }

  /** The second attempt of a start is the last, for every shell: after a
      conflict and a yes, a failing stash or any error of the second
      attempt, another conflict included, ends the operation. */
  lemma StartSecondAttemptIsFinal(plan: StartPlan, run: Runner)
    requires run(|plan.questions|, FetchAll).Ok?
    requires var first := RunCommands(AttemptBlock(plan.base, plan.target), run, StartPrefix(plan));
      first.failure.Some? && IsConflict(first.failure.value)
    ensures var block := AttemptBlock(plan.base, plan.target);
      var first := RunCommands(block, run, StartPrefix(plan));
      var stashed := first.trace + [Ask(ConfirmStash), Git(Stash)];
      var r := Start(plan, true, run);
      (run(|stashed| - 1, Stash).Err? ==> r == Session(stashed, Failed(run(|stashed| - 1, Stash).error)))
      && (run(|stashed| - 1, Stash).Ok? ==>
            var second := RunCommands(block, run, stashed);
            r.trace == second.trace && (second.failure.Some? ==> r.outcome == Failed(second.failure.value)))
  {
    var block := AttemptBlock(plan.base, plan.target);
    assert Start(plan, true, run) == WithStashRetry(block, plan.abort, true, run, StartPrefix(plan));
    WithStashRetrySecondRunIsFinal(block, plan.abort, run, StartPrefix(plan));
  }

  /** The commonest error: `git checkout -b` refuses a branch that already
      exists. It is not a conflict, so it is rethrown at once, after the
      checkout and reset of the base, with no stash prompt. */
  lemma StartExistingBranchIsRethrown(plan: StartPlan, confirmStash: bool, run: Runner, m: string)
    requires var k := |plan.questions| + 1;
      run(k - 1, FetchAll).Ok? && run(k, Checkout(plan.base)).Ok?
      && run(k + 1, ResetHard(RemoteBranch(plan.base))).Ok?
      && run(k + 2, CreateAndCheckout(plan.target)) == Err(m) && !IsConflict(m)
    ensures Start(plan, confirmStash, run)
      == Session(StartPrefix(plan) + [Git(Checkout(plan.base)), Git(ResetHard(RemoteBranch(plan.base))),
                                      Git(CreateAndCheckout(plan.target))], Failed(m))
  {
    var block := AttemptBlock(plan.base, plan.target);
    var t1 := StartPrefix(plan) + [Git(Checkout(plan.base))];
    var t2 := t1 + [Git(ResetHard(RemoteBranch(plan.base)))];
    var t3 := t2 + [Git(CreateAndCheckout(plan.target))];
    assert RunCommands(block, run, StartPrefix(plan)) == RunCommands(block[1..], run, t1);
    assert block[1..][1..] == block[2..];
    assert RunCommands(block[1..], run, t1) == RunCommands(block[2..], run, t2);
    assert block[2..][0] == CreateAndCheckout(plan.target);
    assert RunCommands(block[2..], run, t2) == Step(t3, Some(m));
    assert Start(plan, confirmStash, run) == WithStashRetry(block, plan.abort, confirmStash, run, StartPrefix(plan));
    WithStashRetryCases(block, plan.abort, confirmStash, run, StartPrefix(plan));
    assert t3 == StartPrefix(plan) + [Git(Checkout(plan.base)), Git(ResetHard(RemoteBranch(plan.base))),
                                      Git(CreateAndCheckout(plan.target))];
  }

  /** `startSprint` with every command succeeding. */
  lemma StartSprintHappyPath(a: Answers, run: Runner)
    requires AllOk(run)
    ensures var sprint := SprintBranch(a.projectName, a.sprintNumber);
      StartSprint(a, run) == Session(
        [Ask(ProjectAndSprint), Git(FetchAll), Git(Checkout("develop")), Git(ResetHard("origin/develop")),
         Git(CreateAndCheckout(sprint)), Git(Push(sprint))], Done)
  {
    StartHappyPath(SprintPlan(a), a.confirmStash, run);
    assert RemoteBranch("develop") == "origin/develop";
    assert Asked([ProjectAndSprint]) == [Ask(ProjectAndSprint)];
  }

  /** `startFeature` with every command succeeding: the feature branch is
      the issue number and the slug of the description. */
  lemma StartFeatureHappyPath(a: Answers, run: Runner)
    requires AllOk(run)
    ensures var sprint := SprintBranch(a.projectName, a.sprintNumber);
      var feature := a.issueNumber + "-" + Util.DashCase(a.description);
      StartFeature(a, run) == Session(
        [Ask(ProjectAndSprint), Ask(IssueAndFeature), Git(FetchAll), Git(Checkout(sprint)),
         Git(ResetHard("origin/" + sprint)), Git(CreateAndCheckout(feature)), Git(Push(feature))], Done)
  {
    var sprint := SprintBranch(a.projectName, a.sprintNumber);
    StartHappyPath(FeaturePlan(a), a.confirmStash, run);
    assert RemoteBranch(sprint) == "origin/" + sprint;
    assert Asked([ProjectAndSprint, IssueAndFeature]) == [Ask(ProjectAndSprint), Ask(IssueAndFeature)];
  }

  /** `startHotfix` as intended, with every command succeeding. */
  lemma StartHotfixHappyPath(a: Answers, run: Runner)
    requires AllOk(run)
    ensures var hotfix := "hotfix/" + a.issueNumber + "-" + Util.DashCase(a.description);
      StartHotfix(a, run) == Session(
        [Ask(IssueAndHotfix), Git(FetchAll), Git(Checkout("master")), Git(ResetHard("origin/master")),
         Git(CreateAndCheckout(hotfix)), Git(Push(hotfix))], Done)
  {
    StartHappyPath(HotfixPlan(a), a.confirmStash, run);
    assert RemoteBranch("master") == "origin/master";
    assert Asked([IssueAndHotfix]) == [Ask(IssueAndHotfix)];
  }

  /** Each start operation stashes and asks about stashing at most once. */
  lemma StartOperationsRetryOnce(a: Answers, run: Runner)
    ensures Count(StartSprint(a, run).trace, Git(Stash)) <= 1
    ensures Count(StartFeature(a, run).trace, Git(Stash)) <= 1
    ensures Count(StartHotfix(a, run).trace, Git(Stash)) <= 1
    ensures Count(StartSprint(a, run).trace, Ask(ConfirmStash)) <= 1
    ensures Count(StartFeature(a, run).trace, Ask(ConfirmStash)) <= 1
    ensures Count(StartHotfix(a, run).trace, Ask(ConfirmStash)) <= 1
  {
    StartRetriesOnce(SprintPlan(a), a.confirmStash, run);
    StartRetriesOnce(FeaturePlan(a), a.confirmStash, run);
    StartRetriesOnce(HotfixPlan(a), a.confirmStash, run);
  }

  /** Declining to stash aborts `startSprint` with "Operation aborted." and
      `startFeature` and `startHotfix` with "Operation aborted". */
  lemma StartOperationsAbortMessages(a: Answers, run: Runner, m: string)
    requires !a.confirmStash && IsConflict(m)
    requires run(1, FetchAll).Ok? && run(2, FetchAll).Ok?
    requires run(2, Checkout("develop")) == Err(m) && run(2, Checkout("master")) == Err(m)
    requires run(3, Checkout(SprintBranch(a.projectName, a.sprintNumber))) == Err(m)
    ensures StartSprint(a, run).outcome == Failed("Operation aborted.")
    ensures StartFeature(a, run).outcome == Failed("Operation aborted")
    ensures StartHotfix(a, run).outcome == Failed("Operation aborted")
  {
    StartDeclinedStash(SprintPlan(a), run, m);
    StartDeclinedStash(FeaturePlan(a), run, m);
    StartDeclinedStash(HotfixPlan(a), run, m);
  }

  /** A feature branch started for a numeric issue parses back, on
      finishing, into that issue number; and a description without dashes
      or doubled spaces comes back as the issue name. */
  lemma FeatureBranchParsesBack(a: Answers)
    requires Util.IsNumeric(a.issueNumber) && a.description != []
    ensures Util.ToIssueNumberAndName(FeatureBranch(a))
      == Ok(Util.IssueRef(a.issueNumber, Util.SpaceCase(Util.DashCase(a.description))))
    ensures '-' !in a.description && Util.NoDoubled(a.description, ' ') ==>
      Util.ToIssueNumberAndName(FeatureBranch(a)) == Ok(Util.IssueRef(a.issueNumber, a.description))
  {
    Util.DashCaseLength(a.description);
    Util.IssueBranchRoundTrip(a.issueNumber, Util.DashCase(a.description));
    if '-' !in a.description && Util.NoDoubled(a.description, ' ') {
      Util.SpaceCaseUndoesDashCase(a.description);
    }
  }

  /** A hotfix branch is not an issue branch: finishing it as a feature
      fails with the format error. */
  lemma HotfixBranchIsNotIssueBranch(a: Answers)
    ensures Util.ToIssueNumberAndName(HotfixPlan(a).target) == Err(Util.FormatError)
  {
    var b := HotfixPlan(a).target;
    assert b[0] == 'h';
    if JsString.Contains(b, "-") {
      var dash := JsString.IndexOf(b, "-");
      assert JsString.OccursAt(b, "-", dash);
      assert b[dash..dash + 1][0] == b[dash] == '-';
      assert b[..dash][0] == 'h';
    }
    Util.IssueBranchRejected(b);
  }

  /** As written, `startHotfix` issues no git command and always fails,
      where the intended operation creates and pushes the hotfix branch. */
  lemma StartHotfixAsShippedNeverStarts(a: Answers, run: Runner)
    ensures StartHotfixAsShipped(a, run).trace == []
    ensures StartHotfixAsShipped(a, run).outcome == Failed(NotAFunction("inquirer.askIssueNumberAndHotfix"))
    ensures AllOk(run) ==> StartHotfix(a, run).outcome == Done
  {
    if AllOk(run) {
      StartHappyPath(HotfixPlan(a), a.confirmStash, run);
    }
  }

  // ----- finishing a feature -----

  function FinishingFeatureMessage(branch: string, base: string): string
  {
    "Are you sure, you finished " + branch + " of " + base
  }

  /** `goToBaseBranch`. */
  function BaseBlock(base: string): seq<GitCommand>
  {
    [Checkout(base), ResetHard(RemoteBranch(base))]
  }

  /** How far `finishFeature` gets before it needs the issue number: either
      it has already stopped, or it knows the branch, its sprint branch and
      the remote URL. */
  datatype Prelude =
    | Stopped(session: Session)
    | Confirmed(branch: string, base: string, url: string, trace: seq<Event>)

  function FinishFeaturePrelude(a: Answers, run: Runner): Prelude
  {
    var t0 := [Git(CurrentBranch)];
    match run(0, CurrentBranch)
    case Err(m) => Stopped(Session(t0, Failed(m)))
    case Ok(branch) =>
      if branch == "" then Stopped(Session(t0, Failed(DetachedHead)))
      else
        var base := SprintBranch(a.projectName, a.sprintNumber);
        var t1 := t0 + [Ask(ProjectAndSprint), Ask(ConfirmFinishing(FinishingFeatureMessage(branch, base)))];
        if !a.confirmFinish then Stopped(Session(t1, Failed(Aborted)))
        else
          var t2 := t1 + [Git(RemoteUrl)];
          match run(|t1|, RemoteUrl)
          case Err(m) => Stopped(Session(t2, Failed(m)))
          case Ok(url) => Confirmed(branch, base, url, t2)
  }

  /** `finishFeature` with the helpers it calls defined: open a pull request
      from the current branch into its sprint branch, then fetch and go
      back to the sprint branch under the stash-and-retry recovery. */
  function FinishFeature(a: Answers, run: Runner, pull: PullService): Session
  {
    match FinishFeaturePrelude(a, run)
    case Stopped(s) => s
    case Confirmed(branch, base, url, t2) =>
      match Remote.OwnerAndRepo(url)
      case Err(m) => Session(t2, Failed(m))
      case Ok(origin) =>
        match Util.ToIssueNumberAndName(branch)
        case Err(m) => Session(t2, Failed(m))
        case Ok(issue) =>
          var pr := PullRequest(origin.owner, origin.repo, branch, branch, base, "Closes #" + issue.issueNumber);
          match pull(pr)
          case Err(m) => Session(t2 + [RequestPull(pr)], Failed(m))
          case Ok(_) => ReturnToBase(base, a.confirmStash, run, t2 + [RequestPull(pr)])
  }

  /** After the pull request: fetch, then `goToBaseBranch` under the
      stash-and-retry recovery. */
  function ReturnToBase(base: string, confirmStash: bool, run: Runner, trace: seq<Event>): Session
  {
    var fetched := trace + [Git(FetchAll)];
    match run(|trace|, FetchAll)
    case Err(m) => Session(fetched, Failed(m))
    case Ok(_) => WithStashRetry(BaseBlock(base), Aborted, confirmStash, run, fetched)
  }

  /** `finishFeature` as written: lib/util.js exports no
      `toIssueNumberAndName`, so once the remote URL is parsed the call
      throws. */
  function FinishFeatureAsShipped(a: Answers, run: Runner, pull: PullService): Session
  {
    match FinishFeaturePrelude(a, run)
    case Stopped(s) => s
    case Confirmed(branch, base, url, t2) =>
      match Remote.OwnerAndRepoAsWritten(url)
      case Err(m) => Session(t2, Failed(m))
      case Ok(_) => Session(t2, Failed(NotAFunction("toIssueNumberAndName")))
  }

  // ----- finishing a sprint -----

  function FinishingSprintMessage(projectName: string, sprintNumber: string): string
  {
    "Are you sure, you finished sprint " + sprintNumber + " of " + projectName
  }

  /** `finishSprint`: after confirmation, fetch and go to the sprint branch;
      any error of the checkout or the reset is swallowed. */
  function FinishSprint(a: Answers, run: Runner): Session
  {
    var branch := SprintBranch(a.projectName, a.sprintNumber);
    var t1 := [Ask(ProjectAndSprint), Ask(ConfirmFinishing(FinishingSprintMessage(a.projectName, a.sprintNumber)))];
    if !a.confirmFinish then Session(t1, Failed(Aborted))
    else
      var t2 := t1 + [Git(FetchAll)];
      match run(|t1|, FetchAll)
      case Err(m) => Session(t2, Failed(m))
      case Ok(_) => Session(RunCommands(BaseBlock(branch), run, t2).trace, Done)
  }

  // ----- properties of finishing a feature -----

  /** When the branch name read is empty, finishing stops right after reading it. */
  lemma FinishFeatureDetached(a: Answers, run: Runner, pull: PullService)
    requires run(0, CurrentBranch) == Ok("")
    ensures FinishFeature(a, run, pull) == Session([Git(CurrentBranch)], Failed(DetachedHead))
    ensures FinishFeatureAsShipped(a, run, pull) == Session([Git(CurrentBranch)], Failed(DetachedHead))
  {
  }

  /** Declining the confirmation stops before the remote is read: no pull
      request, no fetch, no checkout. */
  lemma FinishFeatureDeclined(a: Answers, run: Runner, pull: PullService, branch: string)
    requires run(0, CurrentBranch) == Ok(branch) && branch != "" && !a.confirmFinish
    ensures var base := SprintBranch(a.projectName, a.sprintNumber);
      FinishFeature(a, run, pull) == Session(
        [Git(CurrentBranch), Ask(ProjectAndSprint),
         Ask(ConfirmFinishing("Are you sure, you finished " + branch + " of " + base))],
        Failed(Aborted))
  {
  }

  /** With every reply a success, finishing `{issue}-{slug}` opens a pull
      request titled after the branch into its sprint branch that closes
      the issue, then fetches and returns to the freshly reset sprint branch. */
  lemma FinishFeatureHappyPath(a: Answers, run: Runner, pull: PullService,
                               number: string, slug: string, url: string, origin: Remote.Origin)
    requires AllOk(run) && (forall pr :: pull(pr).Ok?) && a.confirmFinish
    requires Util.IsNumeric(number) && slug != []
    requires run(0, CurrentBranch) == Ok(number + "-" + slug)
    requires run(3, RemoteUrl) == Ok(url) && Remote.OwnerAndRepo(url) == Ok(origin)
    ensures var branch := number + "-" + slug;
      var base := SprintBranch(a.projectName, a.sprintNumber);
      FinishFeature(a, run, pull) == Session(
        [Git(CurrentBranch), Ask(ProjectAndSprint), Ask(ConfirmFinishing(FinishingFeatureMessage(branch, base))),
         Git(RemoteUrl),
         RequestPull(PullRequest(origin.owner, origin.repo, branch, branch, base, "Closes #" + number)),
         Git(FetchAll), Git(Checkout(base)), Git(ResetHard("origin/" + base))],
        Done)
  {
    var branch := number + "-" + slug;
    var base := SprintBranch(a.projectName, a.sprintNumber);
    Util.IssueBranchRoundTrip(number, slug);
    var pr := PullRequest(origin.owner, origin.repo, branch, branch, base, "Closes #" + number);
    var t4 := [Git(CurrentBranch), Ask(ProjectAndSprint), Ask(ConfirmFinishing(FinishingFeatureMessage(branch, base))),
               Git(RemoteUrl), RequestPull(pr), Git(FetchAll)];
    RunCommandsSucceed(BaseBlock(base), run, t4);
    assert RemoteBranch(base) == "origin/" + base;
  }

  /** Returning to the sprint branch keeps what happened before and
      starts with the fetch; it stashes and asks about stashing at most once. */
  lemma ReturnToBaseExtends(base: string, confirmStash: bool, run: Runner, trace: seq<Event>)
    ensures var r := ReturnToBase(base, confirmStash, run, trace);
      |r.trace| > |trace| && r.trace[..|trace|] == trace && r.trace[|trace|] == Git(FetchAll)
    ensures var r := ReturnToBase(base, confirmStash, run, trace);
      Count(r.trace, Git(Stash)) <= Count(trace, Git(Stash)) + 1
      && Count(r.trace, Ask(ConfirmStash)) <= Count(trace, Ask(ConfirmStash)) + 1
  {
    var fetched := trace + [Git(FetchAll)];
    CountAppend(trace, [Git(FetchAll)], Git(Stash));
    CountAppend(trace, [Git(FetchAll)], Ask(ConfirmStash));
    if run(|trace|, FetchAll).Ok? {
      WithStashRetryExtends(BaseBlock(base), Aborted, confirmStash, run, fetched);
      WithStashRetryRetriesOnce(BaseBlock(base), Aborted, confirmStash, run, fetched);
      var r := ReturnToBase(base, confirmStash, run, trace);
      assert r.trace[..|fetched|] == fetched;
      assert r.trace[..|trace|] == fetched[..|trace|];
    }
  }

  /** The `catch` around `goToBaseBranch`, for every shell, once the fetch
      succeeded: an error of the checkout or the reset that lacks the
      conflict text is rethrown right after that command, and a conflict
      the user declines aborts right after the stash prompt. */
  lemma ReturnToBaseRecovery(base: string, confirmStash: bool, run: Runner, trace: seq<Event>)
    requires run(|trace|, FetchAll).Ok?
    ensures var first := RunCommands(BaseBlock(base), run, trace + [Git(FetchAll)]);
      var conflict := first.failure.Some? && IsConflict(first.failure.value);
      var r := ReturnToBase(base, confirmStash, run, trace);
      (first.failure.Some? && !conflict ==> r == Session(first.trace, Failed(first.failure.value)))
      && (conflict && !confirmStash ==> r == Session(first.trace + [Ask(ConfirmStash)], Failed(Aborted)))
  {
    WithStashRetryCases(BaseBlock(base), Aborted, confirmStash, run, trace + [Git(FetchAll)]);
  }

  /** Going back to the sprint branch asks about stashing exactly when the
      first checkout or reset hits a conflict, and stashes exactly when the
      user then says yes. */
  lemma ReturnToBaseAsksIffConflict(base: string, confirmStash: bool, run: Runner, trace: seq<Event>)
    requires run(|trace|, FetchAll).Ok?
    ensures var first := RunCommands(BaseBlock(base), run, trace + [Git(FetchAll)]);
      var conflict := first.failure.Some? && IsConflict(first.failure.value);
      var r := ReturnToBase(base, confirmStash, run, trace);
      Count(r.trace, Ask(ConfirmStash)) == Count(trace, Ask(ConfirmStash)) + (if conflict then 1 else 0)
      && Count(r.trace, Git(Stash)) == Count(trace, Git(Stash)) + (if conflict && confirmStash then 1 else 0)
  {
    var fetched := trace + [Git(FetchAll)];
    CountAppend(trace, [Git(FetchAll)], Git(Stash));
    CountAppend(trace, [Git(FetchAll)], Ask(ConfirmStash));
    WithStashRetryAsksIffConflict(BaseBlock(base), Aborted, confirmStash, run, fetched);
  }

  /** The pull request of a confirmed branch that parses as an issue branch. */
  function PullFor(a: Answers, branch: string, origin: Remote.Origin): PullRequest
    requires Util.ToIssueNumberAndName(branch).Ok?
  {
    PullRequest(origin.owner, origin.repo, branch, branch, SprintBranch(a.projectName, a.sprintNumber),
                "Closes #" + Util.ToIssueNumberAndName(branch).value.issueNumber)
  }

  /** Whatever happens, the fetch and the return to the sprint branch come
      only after the pull request was opened, from the current branch into
      its sprint branch, closing the branch's issue. */
  lemma FinishFeaturePullPrecedesFetch(a: Answers, run: Runner, pull: PullService)
    ensures var r := FinishFeature(a, run, pull);
      (|r.trace| > 5 && r.trace[5] == Git(FetchAll)) || Git(FetchAll) !in r.trace
    ensures var r := FinishFeature(a, run, pull);
      Git(FetchAll) in r.trace ==>
        run(0, CurrentBranch).Ok? && Util.ToIssueNumberAndName(run(0, CurrentBranch).value).Ok?
        && run(3, RemoteUrl).Ok? && Remote.OwnerAndRepo(run(3, RemoteUrl).value).Ok?
        && r.trace[4] == RequestPull(PullFor(a, run(0, CurrentBranch).value, Remote.OwnerAndRepo(run(3, RemoteUrl).value).value))
        && pull(r.trace[4].pull).Ok?
  {
    match FinishFeaturePrelude(a, run)
    case Stopped(s) =>
      assert Git(FetchAll) !in s.trace;
    case Confirmed(branch, base, url, t2) =>
      assert |t2| == 4 && Git(FetchAll) !in t2;
      if Remote.OwnerAndRepo(url).Ok? && Util.ToIssueNumberAndName(branch).Ok? {
        var pr := PullFor(a, branch, Remote.OwnerAndRepo(url).value);
        var t3 := t2 + [RequestPull(pr)];
        assert Git(FetchAll) !in t3;
        if pull(pr).Ok? {
          ReturnToBaseExtends(base, a.confirmStash, run, t3);
          var r := ReturnToBase(base, a.confirmStash, run, t3);
          assert r.trace[4] == t3[4];
        }
      }
  }

  /** Whenever `finishFeature` fetches, the rest of it is exactly the
      return to the sprint branch after the five events up to the pull
      request, so `ReturnToBaseRecovery` and `ReturnToBaseAsksIffConflict`
      describe its `catch`. */
  lemma FinishFeatureReturnsToBase(a: Answers, run: Runner, pull: PullService)
    ensures var r := FinishFeature(a, run, pull);
      Git(FetchAll) in r.trace ==>
        |r.trace| > 5
        && r == ReturnToBase(SprintBranch(a.projectName, a.sprintNumber), a.confirmStash, run, r.trace[..5])
  {
    match FinishFeaturePrelude(a, run)
    case Stopped(s) =>
      assert Git(FetchAll) !in s.trace;
    case Confirmed(branch, base, url, t2) =>
      assert |t2| == 4 && Git(FetchAll) !in t2;
      if Remote.OwnerAndRepo(url).Ok? && Util.ToIssueNumberAndName(branch).Ok? {
        var pr := PullFor(a, branch, Remote.OwnerAndRepo(url).value);
        var t3 := t2 + [RequestPull(pr)];
        assert Git(FetchAll) !in t3;
        if pull(pr).Ok? {
          var r := ReturnToBase(base, a.confirmStash, run, t3);
          assert FinishFeature(a, run, pull) == r;
          ReturnToBaseExtends(base, a.confirmStash, run, t3);
          assert r.trace[..5] == t3;
        }
      }
  }

  /** The stash prompt comes only after the pull request was opened: an
      abort there leaves the request open. */
  lemma FinishFeatureStashAfterPull(a: Answers, run: Runner, pull: PullService)
    ensures var r := FinishFeature(a, run, pull);
      Ask(ConfirmStash) in r.trace ==> |r.trace| > 5 && r.trace[4].RequestPull? && r.trace[5] == Git(FetchAll)
  {
    match FinishFeaturePrelude(a, run)
    case Stopped(s) =>
      assert Ask(ConfirmStash) !in s.trace;
    case Confirmed(branch, base, url, t2) =>
      assert |t2| == 4 && Ask(ConfirmStash) !in t2;
      if Remote.OwnerAndRepo(url).Ok? && Util.ToIssueNumberAndName(branch).Ok? {
        var pr := PullFor(a, branch, Remote.OwnerAndRepo(url).value);
        var t3 := t2 + [RequestPull(pr)];
        assert Ask(ConfirmStash) !in t3;
        if pull(pr).Ok? {
          ReturnToBaseExtends(base, a.confirmStash, run, t3);
          var r := ReturnToBase(base, a.confirmStash, run, t3);
          assert r.trace[4] == t3[4];
        }
      }
  }

  /** Before the pull request nothing is stashed and no stash is asked about. */
  lemma PreludeHasNoStash(a: Answers, run: Runner)
    ensures var p := FinishFeaturePrelude(a, run);
      var t := if p.Stopped? then p.session.trace else p.trace;
      Count(t, Git(Stash)) == 0 && Count(t, Ask(ConfirmStash)) == 0
      && (p.Confirmed? ==> |t| == 4 && t[3] == Git(RemoteUrl))
  {
    var p := FinishFeaturePrelude(a, run);
    var t := if p.Stopped? then p.session.trace else p.trace;
    assert Git(Stash) !in t && Ask(ConfirmStash) !in t;
    CountAbsent(t, Git(Stash));
    CountAbsent(t, Ask(ConfirmStash));
  }

  /** Finishing a feature stashes at most once and asks about stashing at
      most once. */
  lemma FinishFeatureRetriesOnce(a: Answers, run: Runner, pull: PullService)
    ensures Count(FinishFeature(a, run, pull).trace, Git(Stash)) <= 1
    ensures Count(FinishFeature(a, run, pull).trace, Ask(ConfirmStash)) <= 1
  {
    PreludeHasNoStash(a, run);
    match FinishFeaturePrelude(a, run)
    case Stopped(s) =>
    case Confirmed(branch, base, url, t2) =>
      if Remote.OwnerAndRepo(url).Ok? && Util.ToIssueNumberAndName(branch).Ok? {
        var pr := PullFor(a, branch, Remote.OwnerAndRepo(url).value);
        var t3 := t2 + [RequestPull(pr)];
        CountAppend(t2, [RequestPull(pr)], Git(Stash));
        CountAppend(t2, [RequestPull(pr)], Ask(ConfirmStash));
        if pull(pr).Ok? {
          ReturnToBaseExtends(base, a.confirmStash, run, t3);
        }
      }
  }

  /** As written, `finishFeature` never opens a pull request and never
      fetches; once the branch is confirmed and the remote URL parsed it
      fails on the missing helper. */
  lemma FinishFeatureAsShippedOpensNoPull(a: Answers, run: Runner, pull: PullService)
    ensures var r := FinishFeatureAsShipped(a, run, pull);
      r.outcome.Failed? && Git(FetchAll) !in r.trace && forall e | e in r.trace :: !e.RequestPull?
    ensures run(0, CurrentBranch).Ok? && run(0, CurrentBranch).value != "" && a.confirmFinish
      && run(3, RemoteUrl).Ok? && Remote.OwnerAndRepoAsWritten(run(3, RemoteUrl).value).Ok?
      ==> FinishFeatureAsShipped(a, run, pull).outcome == Failed(NotAFunction("toIssueNumberAndName"))
  {
  }

  // ----- properties of finishing a sprint -----

  /** Declining stops before any git command. */
  lemma FinishSprintDeclined(a: Answers, run: Runner)
    requires !a.confirmFinish
    ensures FinishSprint(a, run) == Session(
      [Ask(ProjectAndSprint), Ask(ConfirmFinishing(
         "Are you sure, you finished sprint " + a.sprintNumber + " of " + a.projectName))],
      Failed(Aborted))
  {
  }

  /** A failing fetch is the one git error finishing a sprint reports. */
  lemma FinishSprintFetchFails(a: Answers, run: Runner, m: string)
    requires a.confirmFinish && run(2, FetchAll) == Err(m)
    ensures FinishSprint(a, run) == Session(
      [Ask(ProjectAndSprint), Ask(ConfirmFinishing(FinishingSprintMessage(a.projectName, a.sprintNumber))),
       Git(FetchAll)],
      Failed(m))
  {
  }

  /** Once the fetch succeeds, finishing a sprint succeeds whatever the
      checkout and the reset reply: it tries the checkout, then the reset,
      and never stashes, asks about stashing or opens a pull request. */
  lemma FinishSprintSwallowsErrors(a: Answers, run: Runner)
    requires a.confirmFinish && run(2, FetchAll).Ok?
    ensures var r := FinishSprint(a, run);
      var branch := SprintBranch(a.projectName, a.sprintNumber);
      r.outcome == Done && 4 <= |r.trace| <= 5
      && r.trace[2] == Git(FetchAll) && r.trace[3] == Git(Checkout(branch))
      && (|r.trace| == 5 <==> run(3, Checkout(branch)).Ok?)
      && (|r.trace| == 5 ==> r.trace[4] == Git(ResetHard(RemoteBranch(branch))))
      && forall e | e in r.trace :: !e.RequestPull? && e != Git(Stash) && e != Ask(ConfirmStash)
  {
    var branch := SprintBranch(a.projectName, a.sprintNumber);
    var t2 := [Ask(ProjectAndSprint), Ask(ConfirmFinishing(FinishingSprintMessage(a.projectName, a.sprintNumber))),
               Git(FetchAll)];
    var block := BaseBlock(branch);
    assert RunCommands(block, run, t2) == if run(3, Checkout(branch)).Err?
      then Step(t2 + [Git(Checkout(branch))], Some(run(3, Checkout(branch)).error))
      else RunCommands(block[1..], run, t2 + [Git(Checkout(branch))]);
  }

  /** With every command succeeding, finishing a sprint goes to the sprint
      branch and resets it to its remote state. */
  lemma FinishSprintHappyPath(a: Answers, run: Runner)
    requires a.confirmFinish && AllOk(run)
    ensures var branch := SprintBranch(a.projectName, a.sprintNumber);
      FinishSprint(a, run) == Session(
        [Ask(ProjectAndSprint), Ask(ConfirmFinishing(FinishingSprintMessage(a.projectName, a.sprintNumber))),
         Git(FetchAll), Git(Checkout(branch)), Git(ResetHard("origin/" + branch))],
        Done)
  {
    var branch := SprintBranch(a.projectName, a.sprintNumber);
    var t2 := [Ask(ProjectAndSprint), Ask(ConfirmFinishing(FinishingSprintMessage(a.projectName, a.sprintNumber))),
               Git(FetchAll)];
    RunCommandsSucceed(BaseBlock(branch), run, t2);
    assert RemoteBranch(branch) == "origin/" + branch;
  }
}
