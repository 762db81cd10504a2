/** The command sequencing shared by every branch operation of lib/git.js:
    the git commands, the prompts, the trace of what an operation did, and
    the stash-and-retry-once recovery from a conflicting checkout. */
module Workflow {
  import opened Wrappers
  import opened JsString

  /** Part of the message git prints when a checkout would overwrite local
      changes; an error containing it is the one error the workflow
      recovers from. */
  const ConflictText := "Your local changes to the following files would be overwritten by checkout"
  const DefaultRemote := "origin"
  const Aborted := "Operation aborted"

  /** The git commands the workflow issues. */
  datatype GitCommand =
    | FetchAll                          // git fetch --all
    | Checkout(branch: string)          // git checkout <branch>
    | ResetHard(remoteBranch: string)   // git reset --hard <remote>/<branch>
    | CreateAndCheckout(branch: string) // git checkout -b <branch>
    | Push(branch: string)              // git push -u origin <branch>
    | Stash                             // git stash
    | CurrentBranch                     // git rev-parse --abbrev-ref HEAD
    | RemoteUrl                         // git config --get remote.origin.url

  /** The prompts of lib/inquirer.js the workflow asks. */
  datatype Question =
    | ProjectAndSprint
    | IssueAndFeature
    | IssueAndHotfix
    | ConfirmFinishing(message: string)
    | ConfirmStash

  datatype PullRequest = PullRequest(
    owner: Option<string>, repo: string, title: string, head: string, base: string, body: string)

  /** One observable step of an operation, in the order it happened. */
  datatype Event = Git(command: GitCommand) | Ask(question: Question) | RequestPull(pull: PullRequest)

  /** The shell: the reply (standard output, or the error thrown) to the
      command issued as event number `n` of the trace. */
  type Runner = (nat, GitCommand) -> Result<string>

  /** Token check and pull-request creation: the created request's URL, or
      the error thrown. */
  type PullService = PullRequest -> Result<string>

  /** How an operation ended: normally, or with the message of the error it threw. */
  datatype Outcome = Done | Failed(message: string)

  /** What an operation did and how it ended. */
  datatype Session = Session(trace: seq<Event>, outcome: Outcome)

  /** The answers the user gives to the prompts. */
  datatype Answers = Answers(
    projectName: string, sprintNumber: string, issueNumber: string, description: string,
    confirmFinish: bool, confirmStash: bool)

  /** `e.message.indexOf(CHANGES_CONFLICT_ERROR) !== -1`. */
  predicate IsConflict(message: string)
  {
    Contains(message, ConflictText)
  }

  /** Every reply of the shell is a success. */
  ghost predicate AllOk(run: Runner)
  {
    forall n, c :: run(n, c).Ok?
  }

  /** `{project}/sprint-{number}`. */
  function SprintBranch(projectName: string, sprintNumber: string): string
  {
    projectName + "/sprint-" + sprintNumber
  }

  /** `origin/{branch}`. */
  function RemoteBranch(branch: string): string
  {
    DefaultRemote + "/" + branch
  }

  /** The events of issuing `cmds` in order. */
  function Issued(cmds: seq<GitCommand>): seq<Event>
  {
    seq(|cmds|, i requires 0 <= i < |cmds| => Git(cmds[i]))
  }

  /** The events of asking `questions` in order. */
  function Asked(questions: seq<Question>): seq<Event>
  {
    seq(|questions|, i requires 0 <= i < |questions| => Ask(questions[i]))
  }

  /** How many times `e` occurs in `t`. */
  function Count(t: seq<Event>, e: Event): nat
  {
    if |t| == 0 then 0 else Count(t[..|t| - 1], e) + (if t[|t| - 1] == e then 1 else 0)
  }

  lemma {:induction false} CountAppend(a: seq<Event>, b: seq<Event>, e: Event)
    ensures Count(a + b, e) == Count(a, e) + Count(b, e)
    decreases |b|
  {
    if |b| > 0 {
      assert (a + b)[..|a + b| - 1] == a + b[..|b| - 1];
      assert (a + b)[|a + b| - 1] == b[|b| - 1];
      CountAppend(a, b[..|b| - 1], e);
    } else {
      assert a + b == a;
    }
  }

  lemma {:induction false} CountAbsent(t: seq<Event>, e: Event)
    requires e !in t
    ensures Count(t, e) == 0
    decreases |t|
  {
    if |t| > 0 {
      assert e !in t[..|t| - 1];
      CountAbsent(t[..|t| - 1], e);
    }
  }

  /** A count is positive exactly when the event occurs. */
  lemma {:induction false} CountPositive(t: seq<Event>, e: Event)
    ensures Count(t, e) > 0 <==> e in t
    decreases |t|
  {
    if |t| > 0 {
      CountPositive(t[..|t| - 1], e);
      assert t == t[..|t| - 1] + [t[|t| - 1]];
    }
  }

  /** Where a run of commands stopped: the trace so far and, when a command
      threw, its message. */
  datatype Step = Step(trace: seq<Event>, failure: Option<string>)

  /** Awaiting `cmds` one after another: they are issued in order, every
      one before the last issued succeeded, and the run stops at the first
      that throws. */
  function RunCommands(cmds: seq<GitCommand>, run: Runner, trace: seq<Event>): (r: Step)
    ensures |trace| <= |r.trace| <= |trace| + |cmds|
    ensures r.trace == trace + Issued(cmds[..|r.trace| - |trace|])
    ensures r.failure.None? ==> |r.trace| == |trace| + |cmds|
    ensures r.failure.Some? ==>
      |r.trace| > |trace| && run(|r.trace| - 1, cmds[|r.trace| - |trace| - 1]) == Err(r.failure.value)
    ensures forall j :: 0 <= j < |r.trace| - |trace| - (if r.failure.None? then 0 else 1) ==>
      run(|trace| + j, cmds[j]).Ok?
    decreases |cmds|
  {
    if |cmds| == 0 then Step(trace, None)
    else
      var t := trace + [Git(cmds[0])];
      match run(|trace|, cmds[0])
      case Err(m) =>
        assert cmds[..1] == [cmds[0]];
        Step(t, Some(m))
      case Ok(_) =>
        var r := RunCommands(cmds[1..], run, t);
        var k := |r.trace| - |t|;
        assert cmds[..k + 1] == [cmds[0]] + cmds[1..][..k];
        assert Issued(cmds[..k + 1]) == [Git(cmds[0])] + Issued(cmds[1..][..k]);
        assert forall j :: 1 <= j <= k ==> cmds[j] == cmds[1..][j - 1];
        r
  }

  /** When every command from here on succeeds, all of them are issued. */
  lemma RunCommandsSucceed(cmds: seq<GitCommand>, run: Runner, trace: seq<Event>)
    requires forall n, c :: n >= |trace| ==> run(n, c).Ok?
    ensures RunCommands(cmds, run, trace) == Step(trace + Issued(cmds), None)
  {
    var r := RunCommands(cmds, run, trace);
    var n := |r.trace| - |trace|;
    if n > 0 {
      assert run(|trace| + n - 1, cmds[n - 1]).Ok?;
    }
    assert cmds[..|cmds|] == cmds;
  }

  /** The `try { attempt } catch (e) { ... }` of lib/git.js: run the attempt
      block; on an error that is not a conflict, rethrow it; on a conflict,
      ask whether to stash; on no, throw `abort`; on yes, `git stash` and
      run the block once more, letting any error of that second run
      propagate. */
  function WithStashRetry(block: seq<GitCommand>, abort: string, confirmStash: bool,
                          run: Runner, trace: seq<Event>): Session
  {
    var first := RunCommands(block, run, trace);
    if first.failure.None? then Session(first.trace, Done)
    else if !IsConflict(first.failure.value) then Session(first.trace, Failed(first.failure.value))
    else AfterConflict(block, abort, confirmStash, run, first.trace)
  }

  /** The catch branch for a conflicting checkout. */
  function AfterConflict(block: seq<GitCommand>, abort: string, confirmStash: bool,
                         run: Runner, trace: seq<Event>): Session
  {
    var asked := trace + [Ask(ConfirmStash)];
    if !confirmStash then Session(asked, Failed(abort))
    else
      var stashed := asked + [Git(Stash)];
      match run(|asked|, Stash)
      case Err(m) => Session(stashed, Failed(m))
      case Ok(_) =>
        var second := RunCommands(block, run, stashed);
        Session(second.trace, if second.failure.None? then Done else Failed(second.failure.value))
  }

  /** Running the attempt block adds no stash and no stash prompt. */
  lemma BlockHasNoStash(block: seq<GitCommand>, run: Runner, before: seq<Event>)
    requires Stash !in block
    ensures Count(RunCommands(block, run, before).trace, Git(Stash)) == Count(before, Git(Stash))
    ensures Count(RunCommands(block, run, before).trace, Ask(ConfirmStash)) == Count(before, Ask(ConfirmStash))
  {
    var after := RunCommands(block, run, before).trace;
    var added := Issued(block[..|after| - |before|]);
    assert Git(Stash) !in added by {
      forall i | 0 <= i < |added|
        ensures added[i] != Git(Stash)
      {
        assert added[i] == Git(block[i]);
      }
    }
    CountAppend(before, added, Git(Stash));
    CountAppend(before, added, Ask(ConfirmStash));
    CountAbsent(added, Git(Stash));
    CountAbsent(added, Ask(ConfirmStash));
  }

  /** The recovery only ever extends the trace, and a success ends with the
      whole attempt block, issued after everything before it. */
  lemma WithStashRetryExtends(block: seq<GitCommand>, abort: string, confirmStash: bool,
                              run: Runner, trace: seq<Event>)
    ensures var r := WithStashRetry(block, abort, confirmStash, run, trace);
      |trace| <= |r.trace| && r.trace[..|trace|] == trace
      && (r.outcome.Done? ==>
            |r.trace| >= |trace| + |block| && r.trace[|r.trace| - |block|..] == Issued(block))
  {
    var first := RunCommands(block, run, trace);
    assert first.trace[..|trace|] == trace;
    if first.failure.None? {
      assert first.trace[|first.trace| - |block|..] == Issued(block[..|block|]);
      assert block[..|block|] == block;
    } else if IsConflict(first.failure.value) && confirmStash {
      var stashed := first.trace + [Ask(ConfirmStash)] + [Git(Stash)];
      if run(|stashed| - 1, Stash).Ok? {
        var second := RunCommands(block, run, stashed);
        assert second.trace[..|stashed|] == stashed;
        assert second.trace[..|trace|] == stashed[..|trace|];
        if second.failure.None? {
          assert second.trace[|second.trace| - |block|..] == Issued(block[..|block|]);
          assert block[..|block|] == block;
        }
      }
    }
  }

  /** At most one stash prompt and at most one `git stash`, and the stash
      only after the user said yes: the block is retried once, never more. */
  lemma WithStashRetryRetriesOnce(block: seq<GitCommand>, abort: string, confirmStash: bool,
                                  run: Runner, trace: seq<Event>)
    requires Stash !in block
    ensures var r := WithStashRetry(block, abort, confirmStash, run, trace);
      Count(r.trace, Git(Stash)) <= Count(trace, Git(Stash)) + 1
      && Count(r.trace, Ask(ConfirmStash)) <= Count(trace, Ask(ConfirmStash)) + 1
      && (!confirmStash ==> Count(r.trace, Git(Stash)) == Count(trace, Git(Stash)))
  {
    WithStashRetryAsksIffConflict(block, abort, confirmStash, run, trace);
  }

  /** The `catch` decides by the first run alone: success ends the
      operation; an error without the conflict text is rethrown as it is,
      right after the command that threw; a conflict the user declines to
      stash aborts right after the stash prompt. */
  lemma WithStashRetryCases(block: seq<GitCommand>, abort: string, confirmStash: bool,
                            run: Runner, trace: seq<Event>)
    ensures var first := RunCommands(block, run, trace);
      var r := WithStashRetry(block, abort, confirmStash, run, trace);
      (first.failure.None? ==> r == Session(first.trace, Done))
      && (first.failure.Some? && !IsConflict(first.failure.value) ==>
            r == Session(first.trace, Failed(first.failure.value)))
      && (first.failure.Some? && IsConflict(first.failure.value) && !confirmStash ==>
            r == Session(first.trace + [Ask(ConfirmStash)], Failed(abort)))
  {
  }

  /** After a conflict and a yes, the stash and the second run are final:
      a failing stash is the outcome, and otherwise the second run's error,
      whatever it is (another conflict included), is the outcome. */
  lemma WithStashRetrySecondRunIsFinal(block: seq<GitCommand>, abort: string,
                                       run: Runner, trace: seq<Event>)
    requires var first := RunCommands(block, run, trace);
      first.failure.Some? && IsConflict(first.failure.value)
    ensures var first := RunCommands(block, run, trace);
      var stashed := first.trace + [Ask(ConfirmStash), Git(Stash)];
      var r := WithStashRetry(block, abort, true, run, trace);
      (run(|stashed| - 1, Stash).Err? ==>
         r == Session(stashed, Failed(run(|stashed| - 1, Stash).error)))
      && (run(|stashed| - 1, Stash).Ok? ==>
            var second := RunCommands(block, run, stashed);
            r.trace == second.trace
            && (r.outcome.Done? <==> second.failure.None?)
            && (second.failure.Some? ==> r.outcome == Failed(second.failure.value)))
  {
    var first := RunCommands(block, run, trace);
    var stashed := first.trace + [Ask(ConfirmStash), Git(Stash)];
    assert first.trace + [Ask(ConfirmStash)] + [Git(Stash)] == stashed;
    assert WithStashRetry(block, abort, true, run, trace) == AfterConflict(block, abort, true, run, first.trace);
  }

  /** The stash prompt is asked exactly when the first run hits a conflict,
      and `git stash` is issued exactly when the user then says yes. */
  lemma WithStashRetryAsksIffConflict(block: seq<GitCommand>, abort: string, confirmStash: bool,
                                      run: Runner, trace: seq<Event>)
    requires Stash !in block
    ensures var first := RunCommands(block, run, trace);
      var conflict := first.failure.Some? && IsConflict(first.failure.value);
      var r := WithStashRetry(block, abort, confirmStash, run, trace);
      Count(r.trace, Ask(ConfirmStash)) == Count(trace, Ask(ConfirmStash)) + (if conflict then 1 else 0)
      && Count(r.trace, Git(Stash)) == Count(trace, Git(Stash)) + (if conflict && confirmStash then 1 else 0)
  {
    var first := RunCommands(block, run, trace);
    BlockHasNoStash(block, run, trace);
    if first.failure.Some? && IsConflict(first.failure.value) {
      var asked := first.trace + [Ask(ConfirmStash)];
      CountAppend(first.trace, [Ask(ConfirmStash)], Ask(ConfirmStash));
      CountAppend(first.trace, [Ask(ConfirmStash)], Git(Stash));
      assert Count([Ask(ConfirmStash)], Ask(ConfirmStash)) == 1;
      assert Count([Ask(ConfirmStash)], Git(Stash)) == 0;
      if confirmStash {
        var stashed := asked + [Git(Stash)];
        CountAppend(asked, [Git(Stash)], Ask(ConfirmStash));
        CountAppend(asked, [Git(Stash)], Git(Stash));
        assert Count([Git(Stash)], Ask(ConfirmStash)) == 0;
        assert Count([Git(Stash)], Git(Stash)) == 1;
        BlockHasNoStash(block, run, stashed);
      }
    }
  }
}
