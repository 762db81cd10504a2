# gitflow branch workflow, modelled in Dafny

`gitflow` is a command-line helper for a sprint-based git branching
workflow. Branches are named by convention:

| branch | name | cut from |
|---|---|---|
| sprint | `{project}/sprint-{n}` | `develop` |
| feature | `{issue}-{slug}` | its sprint branch |
| hotfix | `hotfix/{issue}-{slug}` | `master` |

Finishing a feature opens a pull request into the sprint branch that closes
the issue, then moves the working copy back to the sprint branch. The three
start operations and the return of `finishFeature` recover from one error: a
checkout refused because it would overwrite local changes. They ask whether
to stash them, and on yes they stash and retry once. Any other error is
rethrown. `finishSprint` has no such recovery: it ignores every error of its
checkout and reset.

This project models that core:

- the slug function `toDashCase` of lib/util.js, as a loop;
- two helpers that lib/util.js does not define, reconstructed from
  lib/util.test.js: `toIssueNumberAndName`, which lib/git.js imports, and
  `toSpaceCase`, which only the tests import;
- `getOwnerAndRepo`, as written and corrected;
- `getConfig` and `setConfig`;
- the operations `startSprint`, `startFeature`, `startHotfix`,
  `finishFeature` and `finishSprint`.

Modules:

- `Wrappers`: `Option` and `Result`.
- `JsString`: JavaScript string primitives. lib/git.js relies on `indexOf`,
  `substring` (its clamping of a negative end) and `split` on one
  character. `lastIndexOf` is not called in lib/git.js; only the corrected
  `OwnerAndRepo` uses it.
- `Util`: `toDashCase` as the method `ToDashCase`, proved equal to the
  recursive reference `DashCase`; the reconstructed `SpaceCase` and
  `ToIssueNumberAndName`.
- `Remote`: `getOwnerAndRepo` on the text git prints for the remote URL.
  `OwnerAndRepoAsWritten` is the code as written; `OwnerAndRepo` is the
  corrected reading (see Findings).
- `Config`: the preferences store as a `map<string, string>`.
- `Workflow`: what every operation shares. An operation is a pure function
  of the user's answers (`Answers`), the shell (`Runner`) and the GitHub
  service (`PullService`). The shell maps the position of a command in the
  trace, and the command, to its output or the error it throws. The result
  is a `Session`: the trace of events (git commands, prompts, pull requests)
  and how it ended (`Done`, or `Failed` with the error message).
  `RunCommands` awaits commands in order and stops at the first error.
  `WithStashRetry` is the `try`/`catch` recovery.
- `GitFlow`: the operations of lib/git.js and their properties. The three
  start operations share `Start` and differ only in their `StartPlan`.
  `FinishFeature` is the intended behaviour. `FinishFeatureAsShipped` and
  `StartHotfixAsShipped` are the code as written.

## Model

| member | source | states |
|---|---|---|
| `JsString.IndexOfFrom` | lib/git.js:104-107 | `indexOf` from a start position gives the first occurrence at or after it, or -1 when there is none |
| `JsString.LastIndexOfUpTo` | lib/git.js:107 | the last occurrence at or before a position, or -1 with none there (used by the corrected repository cut) |
| `JsString.Substring` | lib/git.js:107 | `substring` never throws: the result is no longer than the text, is the slice for in-range arguments, and is a prefix for a negative end (`substring(0, -1)` is `""`) |
| `JsString.SplitJoin` | lib/git.js:96 | the pieces of `split('/')` hold no separator and join back to the text |
| `JsString.SplitAtSeparator` | lib/git.js:96 | splitting distributes over a separator |
| `JsString.SplitNoSeparatorIff` | lib/git.js:96 | a text splits into exactly one piece iff it has no separator (when `arr[1]` is `undefined`) |
| `JsString.FirstGitAfter` | lib/git.js:107 | the first ".git" of `x + ".git" + y` is right after `x` when `x` has none |
| `Util.ToDashCase` | lib/util.js:1-18 | the loop computes the reference slug `DashCase` (each run of spaces becomes one dash) and its result holds no space; while the last character read is a space, the output so far ends in a dash |
| `Util.DashCaseHasNoSpace` | lib/util.js:1-18 | the slug of any text holds no space |
| `Util.DashCaseFromStep` | lib/util.js:5-15 | one pass of the loop body: the character's output (nothing, a dash, or the character itself) followed by the slug of the rest, read in the updated state |
| `Util.DashCaseFromAgrees` | lib/util.js:2-16 | the loop's state machine (last character a space or not) agrees with the look-ahead reference, from either starting state |
| `Util.SpaceRunBecomesOneDash` | lib/util.js:5-11 | a run of n ≥ 1 spaces between two words becomes exactly one dash |
| `Util.DashCaseIdentity` | lib/util.js:12-15 | a text without spaces is its own slug |
| `Util.DashCaseIdempotent` | lib/util.js:1-18 | slugging a slug changes nothing |
| `Util.DashCaseAppend` | lib/util.js:1-18 | slugging distributes over concatenation when no run of spaces straddles the join |
| `Util.DashCaseLength` | lib/util.js:6-7 | the slug is the input's length less the spaces that follow a space, and is empty exactly when the input is |
| `Util.DashCaseKeeps` | lib/util.js:12-15 | a character other than a space is kept in front of the slug of the rest |
| `Util.DashCaseDashes` | lib/util.js:5-11 | a single space before a word (or at the end) becomes one dash |
| `Util.DashCaseDrops` | lib/util.js:5-7 | a space followed by another space adds nothing |
| `Util.DashCaseSpacedWords` | lib/util.test.js:4-6 | any four one-character words separated by one, two and three spaces come out separated by single dashes |
| `Util.DashesAreKept` | lib/util.js:12-15 | existing dashes are kept: "a- b" gives "a--b" |
| `Util.DashCaseExample` | lib/util.test.js:4-6 | "a b  c   d" gives "a-b-c-d" |
| `Util.SpaceCaseUndoesDashCase` | lib/util.test.js:27-29 | `toSpaceCase` inverts the slug of a dash-free text without doubled spaces |
| `Util.DashCaseUndoesSpaceCase` | lib/util.test.js:27-29 | the slug inverts `toSpaceCase` on a space-free text without doubled dashes |
| `Util.SpaceCaseExample` | lib/util.test.js:27-29 | "a-b-c-d" gives "a b c d" |
| `Util.ToIssueNumberAndName` | lib/util.test.js:8-25 | a parsed branch is its numeric issue number, a dash right after it, and the rest, which read with dashes as spaces is the non-empty name; the number holds no dash, so that dash is the first one; any failure is the format error |
| `Util.IssueBranchRoundTrip` | lib/util.test.js:9-14 | `{number}-{slug}` parses back to the number and the slug with dashes read as spaces |
| `Util.IssueBranchRejected` | lib/util.test.js:16-24 | a branch with no dash, or whose text before the first dash is not numeric, fails with the format error |
| `Util.IssueBranchIff` | lib/util.test.js:8-25 | parsing succeeds exactly on branches made of a run of digits, a dash and at least one more character |
| `Util.IssueExamples` | lib/util.test.js:9-24 | "1-feature-a" gives issue "1", name "feature a"; "abc" and "a-feature-a" fail |
| `Remote.OwnerAndRepoAsWritten` | lib/git.js:94-122 | as written, reading fails (`.substring` of `undefined`) iff the text has neither "https" nor a slash |
| `Remote.OwnerAndRepo` | lib/git.js:94-122 | corrected, reading fails iff the text neither starts with "https" nor has a slash |
| `Remote.HttpsSplit` | lib/git.js:96-102 | an `https://host/owner/seg` text splits into its five segments |
| `Remote.SshSplit` | lib/git.js:96 | a `git@host:owner/seg` text splits into two segments |
| `Remote.SshOwnerOf` | lib/git.js:118 | the owner of `git@host:owner` is the text after the first colon |
| `Remote.HttpsRoundTrip` | lib/git.js:98-108 | the corrected reading recovers owner and repository from every `https://host/owner/repo.git` remote text (slash-free host, owner and name) |
| `Remote.SshRoundTrip` | lib/git.js:110-120 | the corrected reading recovers owner and repository from every `git@host:owner/repo.git` remote text (colon-free host, slash-free owner and name) |
| `Remote.AsWrittenHttpsRoundTrip` | lib/git.js:104-108 | as written, every `https://host/owner/repo.git` remote text is read right when the repository name has no ".git" of its own |
| `Remote.AsWrittenSshRoundTrip` | lib/git.js:116-120 | as written, every `git@host:owner/repo.git` remote text is read right when "https" occurs nowhere in it and the name has no ".git" of its own |
| `Remote.AsWrittenSshReadRightIff` | lib/git.js:104-120 | as written, a `git@host:owner/repo.git` remote text is read right exactly when "https" occurs nowhere in it (host, owner or name) and the name has no ".git" of its own; without the ".git" suffix the name is read as empty (see `Remote.SshMissingGitGivesEmptyRepo`) |
| `Remote.MissingGitGivesEmptyRepo` | lib/git.js:104-108 | an `https` URL whose last segment has no ".git" gives an empty repository name, in both readings |
| `Remote.SshMissingGitGivesEmptyRepo` | lib/git.js:116-120 | an SSH URL with no ".git" after its slash gives an empty repository name, in both readings; the corrected one still finds the owner |
| `Remote.AsWrittenMisreadsSshWithHttps` | lib/git.js:104-108 | as written, an SSH URL whose repository name contains "https" (such as `git@github.com:o/https-proxy.git`) gets the whole `git@host:owner` as owner; the corrected reading gives the owner, so the two differ |
| `Remote.AsWrittenCutsAtFirstGit` | lib/git.js:107 | as written, a repository name with ".git" inside (such as `o.github.io`) is cut at that first ".git"; the corrected reading keeps the whole name, so the two differ |
| `Config.SetConfig` | lib/git.js:141-144 | `setConfig` writes exactly the two keys `{key}projectName` and `{key}sprintNumber` and leaves every other entry as it was |
| `Config.SuffixCancels` | lib/git.js:88-89 | different keys give different store keys |
| `Config.ProjectKeyIsNotSprintKey` | lib/git.js:88-89 | a project-name key never collides with a sprint-number key |
| `Config.GetAfterSet` | lib/git.js:87-91 | `getConfig` after `setConfig` under the same key reads back both values |
| `Config.SetLeavesOtherKeys` | lib/git.js:141-144 | `setConfig` under one key leaves `getConfig` under every other key unchanged |
| `Config.SetKeepsToken` | lib/git.js:141-144 | `setConfig` never touches the stored GitHub token |
| `Workflow.RunCommands` | lib/git.js:225-228 | awaited commands are issued in order; every command before the last issued succeeded; the run stops at the first error, which it reports, or issues them all |
| `Workflow.RunCommandsSucceed` | lib/git.js:225-228 | when every command succeeds, all of them are issued |
| `Workflow.WithStashRetryExtends` | lib/git.js:208-220 | the recovery only extends the trace, and a success ends with the whole attempt block |
| `Workflow.WithStashRetryRetriesOnce` | lib/git.js:208-220 | the recovery asks about stashing at most once and stashes at most once, never without a yes |
| `Workflow.WithStashRetryCases` | lib/git.js:208-217 | for every shell: a first run that succeeds ends the operation; an error without the conflict text is rethrown unchanged right after the command that threw; a conflict and a no abort right after the stash prompt |
| `Workflow.WithStashRetrySecondRunIsFinal` | lib/git.js:218-219 | after a conflict and a yes, a failing stash is the outcome, and otherwise the second run's trace and error, whatever it is, are the outcome |
| `Workflow.WithStashRetryAsksIffConflict` | lib/git.js:210-219 | the stash prompt is asked exactly when the first run hits a conflict, and `git stash` is issued exactly when the user then says yes |
| `GitFlow.StartHappyPath` | lib/git.js:205-231 | with every command succeeding, a start asks, fetches, and runs the attempt block once |
| `GitFlow.StartFetchFails` | lib/git.js:206-207 | a failing fetch ends a start before any checkout |
| `GitFlow.StartResetErrorIsRethrown` | lib/git.js:210-213 | a reset error without the conflict text is rethrown at once: no prompt, no stash, no branch |
| `GitFlow.StartDeclinedStash` | lib/git.js:214-217 | a declined stash after a conflicting checkout aborts with the operation's message, right after the prompt |
| `GitFlow.StartStashThenRetry` | lib/git.js:218-219 | an accepted stash is followed by `git stash` and a complete second attempt |
| `GitFlow.StartSecondConflictIsFinal` | lib/git.js:218-220 | a second conflicting checkout of the base ends the operation: the block is not tried a third time |
| `GitFlow.StartSucceedsByPushing` | lib/git.js:222-230 | a successful start ends with the whole attempt block, pushing the branch it created |
| `GitFlow.StartRetriesOnce` | lib/git.js:208-220 | a start stashes at most once and asks about stashing at most once, and never stashes on a no |
| `GitFlow.StartRecovery` | lib/git.js:208-220 | for every shell, once the fetch succeeded: an error of any attempt-block command without the conflict text is rethrown right after that command; a conflict and a no abort with the operation's message right after the prompt; the prompt is asked iff the first attempt hits a conflict, and `git stash` is issued iff the user then says yes |
| `GitFlow.StartSecondAttemptIsFinal` | lib/git.js:218-220 | for every shell, after a conflict and a yes: a failing stash, or any error of the second attempt (another conflict included), ends the operation |
| `GitFlow.StartExistingBranchIsRethrown` | lib/git.js:208-230 | a `git checkout -b` refused with a non-conflict error (the branch already exists) is rethrown after the checkout and reset of the base, with no stash prompt |
| `GitFlow.StartSprintHappyPath` | lib/git.js:205-231 | `startSprint` cuts `{project}/sprint-{n}` from a reset `develop` and pushes it |
| `GitFlow.StartFeatureHappyPath` | lib/git.js:146-174 | `startFeature` cuts `{issue}-{slug}` from the reset sprint branch and pushes it |
| `GitFlow.StartHotfixHappyPath` | lib/git.js:176-203 | `startHotfix`, as intended, cuts `hotfix/{issue}-{slug}` from a reset `master` and pushes it |
| `GitFlow.StartOperationsRetryOnce` | lib/git.js:146-231 | each of the three starts stashes at most once and prompts about stashing at most once |
| `GitFlow.StartOperationsAbortMessages` | lib/git.js:146-231 | a declined stash aborts `startSprint` with "Operation aborted." and the other two starts with "Operation aborted" |
| `GitFlow.FeatureBranchParsesBack` | lib/git.js:149-167 | a feature branch started for a numeric issue parses back into that issue number on finishing; a dash-free description without doubled spaces comes back as the name |
| `GitFlow.HotfixBranchIsNotIssueBranch` | lib/git.js:196 | a hotfix branch never parses as an issue branch |
| `GitFlow.StartHotfixAsShippedNeverStarts` | lib/git.js:176-177 | as written, `startHotfix` fails on its first statement, before any git command; as intended it succeeds |
| `GitFlow.FinishFeatureDetached` | lib/git.js:43-46 | when the branch name read is empty, finishing stops right after reading it, in both versions |
| `GitFlow.FinishFeatureDeclined` | lib/git.js:47-52 | a declined confirmation stops before the remote is read: no pull request, fetch or checkout |
| `GitFlow.FinishFeatureHappyPath` | lib/git.js:42-80 | finishing `{issue}-{slug}` opens a pull request titled after the branch into its sprint branch, with body `Closes #{issue}`, then fetches, checks out the sprint branch and resets it |
| `GitFlow.ReturnToBaseExtends` | lib/git.js:62-79 | going back to the sprint branch keeps the trace so far, fetches first, and stashes at most once |
| `GitFlow.ReturnToBaseRecovery` | lib/git.js:62-75 | for every shell, once the fetch succeeded: a checkout or reset error without the conflict text is rethrown right after that command; a conflict and a no abort with "Operation aborted" right after the prompt |
| `GitFlow.ReturnToBaseAsksIffConflict` | lib/git.js:62-75 | going back to the sprint branch asks about stashing exactly on a conflict, and stashes exactly when the user then says yes |
| `GitFlow.FinishFeatureReturnsToBase` | lib/git.js:55-79 | whenever `finishFeature` fetches, everything from the fetch on is the return to the sprint branch after the first five events, so the two lemmas above describe its `catch` |
| `GitFlow.FinishFeaturePullPrecedesFetch` | lib/git.js:53-61 | whenever the fetch happens it is event 5, right after the pull request at event 4, which was accepted and has the branch as title and head, the sprint branch as base and `Closes #{issue}` as body |
| `GitFlow.FinishFeatureStashAfterPull` | lib/git.js:62-75 | the stash prompt comes only after the pull request, so an abort there leaves the request open |
| `GitFlow.PreludeHasNoStash` | lib/git.js:43-53 | nothing before the pull request stashes or asks about stashing |
| `GitFlow.FinishFeatureRetriesOnce` | lib/git.js:63-75 | finishing a feature stashes at most once and asks about stashing at most once |
| `GitFlow.FinishFeatureAsShippedOpensNoPull` | lib/git.js:53-55 | as written, `finishFeature` never opens a pull request and never fetches; after the remote URL is read it fails on the missing `toIssueNumberAndName` |
| `GitFlow.FinishSprintDeclined` | lib/git.js:25-31 | a declined confirmation stops before any git command |
| `GitFlow.FinishSprintFetchFails` | lib/git.js:33 | a failing fetch is reported |
| `GitFlow.FinishSprintSwallowsErrors` | lib/git.js:34-39 | after a fetch, finishing a sprint succeeds whatever the checkout and the reset reply; `git reset --hard origin/{sprint}` is issued, as the fifth and last event, iff the checkout succeeded; there is never a stash, a stash prompt or a pull request |
| `GitFlow.FinishSprintHappyPath` | lib/git.js:24-40 | with every command succeeding, finishing a sprint checks out the sprint branch and resets it to `origin` |

## Left out

- Running processes: `exec` is the abstract `Runner`. Its output is taken
  as given: the `.trim()` of `getCurrentBranch` is not modelled, and a
  branch name is the runner's reply.
- lib/github.js is not part of this model beyond the abstract
  `PullService`. That covers token generation and removal, the Octokit
  client, the token store and the network. Only the request's fields and
  whether it was accepted are modelled. `console.log` of its URL is left out.
- Prompting (lib/inquirer.js): the answers are inputs. Their validation
  (non-empty, `isNaN`) and the defaults `getConfig` supplies are left out.
  Where a property needs a numeric issue number it says so in its `requires`.
- `isGitDirectory` and index.js: the command-line front end and the
  repository check are not modelled.
- Configstore: its file on disk, dot-path key handling and the `undefined`
  value are left out. `SetConfig` takes strings.
- JavaScript strings are UTF-16 code units; the model uses Dafny characters.
- `toIssueNumberAndName` and `toSpaceCase` are reconstructions:
  lib/util.js does not define them, and only lib/util.test.js constrains
  them. "Numeric" is taken as a non-empty run of decimal digits.
- finishSprint: it is not exported, so nothing in the repository can call
  it. It is modelled as written.
- `FinishFeature` is the intended operation and repairs three defects of
  lib/git.js:53-58 at once. It calls `toIssueNumberAndName`, which
  lib/util.js does not export. It calls `github.initiateOctokit` and
  `github.createPull`, which lib/github.js:76-79 does not export (it exports
  only `generateToken` and `removeToken`). And it reads the remote URL with
  the corrected `OwnerAndRepo`. As written, the first missing export already
  throws, which `FinishFeatureAsShipped` models.
- Remote.OwnerAndRepo: the corrected reading is proved right only for remote
  texts ending in ".git". For a name with no ".git" suffix it keeps the
  code's cut: at the last inner ".git" (`a.gitx` gives `a`), or empty when
  there is none (`MissingGitGivesEmptyRepo`).
- Remote.OwnerAndRepoAsWritten: its round trips and its read-right iff are
  proved only for remote texts ending in ".git". Without that suffix both
  `git@host:owner/name` and `https://host/owner/name` give an empty
  repository name (`MissingGitGivesEmptyRepo`, `SshMissingGitGivesEmptyRepo`).
- No finish-hotfix operation and no pre-flight check for local changes
  exist in lib/git.js, so there is none here.

## Findings

| source | as written | input that shows it | evidently intended | confidence | as-written member | corrected member |
|---|---|---|---|---|---|---|
| lib/git.js:177 | `startHotfix` calls `inquirer.askIssueNumberAndHotfix`, which lib/inquirer.js does not export | any call | ask for the issue and the hotfix, then create `hotfix/{issue}-{slug}` | not executed; high | `GitFlow.StartHotfixAsShippedNeverStarts` | `GitFlow.StartHotfixHappyPath` |
| lib/git.js:54 | `finishFeature` calls `toIssueNumberAndName`, which lib/util.js does not export, so it throws after reading the remote URL, before any pull request | any confirmed branch with a readable remote URL | parse the issue number and open the pull request; the intended `FinishFeature` also assumes the `github.initiateOctokit` and `github.createPull` that lib/github.js does not export (see Left out) and reads the remote URL the corrected way | not executed; high | `GitFlow.FinishFeatureAsShippedOpensNoPull` | `GitFlow.FinishFeatureHappyPath` |
| lib/git.js:104 | the `https` form is chosen when "https" occurs anywhere in the URL | `git@github.com:o/https-proxy.git` gives owner `git@github.com:o` | choose the `https` form only for a URL starting with "https" | not executed; high | `Remote.AsWrittenMisreadsSshWithHttps` | `Remote.SshRoundTrip` |
| lib/git.js:107 | the repository name is cut at its first ".git" | `https://github.com/o/o.github.io.git` gives repository `o` | cut at the ".git" suffix; the corrected reading is right for names ending in ".git" and otherwise still cuts at the last inner ".git" (see Left out) | not executed; high | `Remote.AsWrittenCutsAtFirstGit` | `Remote.HttpsRoundTrip` |
