/**
 * The start-up sequence of followersIndexer.js: the token gate, the input-file gate, and the
 * preparation of the work (followers file name, processed store, remaining repositories)
 * that is handed to the follower-fetching loop.
 */
module FollowersIndexer {
  import opened Options
  import opened WorkPlanner
  import opened FileNaming

  /** Returned when no access token is enabled. */
  const NoTokensStatus: int := -1

  /** Returned when the repositories file named on the command line does not exist. */
  const MissingInputStatus: int := -2

  datatype Gate = Halt(status: int) | Proceed

  /** The two checks made before any file is read, in the order the script makes them. */
  function StartupGate(enabledTokens: nat, inputExists: bool): (g: Gate)
    ensures enabledTokens == 0 ==> g == Halt(NoTokensStatus)
    ensures enabledTokens > 0 && !inputExists ==> g == Halt(MissingInputStatus)
    ensures g == Proceed <==> enabledTokens > 0 && inputExists
  {
    if enabledTokens == 0 then Halt(NoTokensStatus)
    else if !inputExists then Halt(MissingInputStatus)
    else Proceed
  }

  /** process.argv[2 + i], where `args` holds the arguments after the script name. */
  function Argument(args: seq<string>, i: nat): Option<string> {
    if i < |args| then Some(args[i]) else None
  }

  /** How the start-up sequence ends: a halt with the script's return value, an uncaught
      exception while reading the repositories file, or the work handed to the indexer. */
  datatype Outcome =
    | Halted(status: int)
    | Crashed
    | Indexing(followersFile: FollowersFile, processed: Store, remaining: seq<Repo>)

  /** The top level of the script up to the call of the indexer.
      `enabledTokens` is the number of enabled access tokens; `args` are the command-line
      arguments after the script name; `existing` is the set of paths that exist;
      `absoluteRepositories` is the resolved form of the repositories file name;
      `repositoryLists` and `checkpoints` map the file names whose contents parse as a
      repository list, respectively as a followers map, to those contents. */
  method Run(enabledTokens: nat, args: seq<string>, existing: set<string>,
             absoluteRepositories: seq<string>,
             repositoryLists: map<string, seq<Repo>>, checkpoints: map<string, Store>)
    returns (outcome: Outcome)
    ensures enabledTokens == 0 ==> outcome == Halted(NoTokensStatus)
    ensures enabledTokens > 0 && !(|args| > 0 && args[0] in existing)
            ==> outcome == Halted(MissingInputStatus)
    ensures enabledTokens > 0 && |args| > 0 && args[0] in existing && args[0] !in repositoryLists
            ==> outcome == Crashed
    ensures outcome.Halted? ==>
            StartupGate(enabledTokens, |args| > 0 && args[0] in existing) == Halt(outcome.status)
    ensures outcome.Indexing? <==>
            enabledTokens > 0 && |args| > 0 && args[0] in existing && args[0] in repositoryLists
    ensures outcome.Indexing? ==>
            var all := repositoryLists[args[0]];
            && outcome.followersFile
               == ProcessedRepositoriesFileName(Argument(args, 1), absoluteRepositories, existing)
            && outcome.processed
               == (if outcome.followersFile.name in checkpoints
                   then checkpoints[outcome.followersFile.name] else map[])
            && outcome.remaining == Remaining(all, outcome.processed)
            && (forall r :: r in outcome.remaining <==> r in all && r.name !in outcome.processed)
            && IsSubsequence(outcome.remaining, all)
            && (outcome.followersFile.name !in checkpoints ==> outcome.remaining == all)
  {
    var repositoriesFileName := Argument(args, 0);
    var inputArgumentsValid := repositoriesFileName.Some? && repositoriesFileName.value in existing;
    var gate := StartupGate(enabledTokens, inputArgumentsValid);
    if gate.Halt? {
      return Halted(gate.status);
    }
    if repositoriesFileName.value !in repositoryLists {
      return Crashed;
    }
    var allRepositories := repositoryLists[repositoriesFileName.value];
    var processedRepositoriesFileName :=
      ProcessedRepositoriesFileName(Argument(args, 1), absoluteRepositories, existing);
    var processedRepositories :=
      GetProcessedRepositories(processedRepositoriesFileName.name, checkpoints);
    var remainingRepositories := Remaining(allRepositories, processedRepositories);
    forall r {
      RemainingMembership(allRepositories, processedRepositories, r);
    }
    RemainingIsSubsequence(allRepositories, processedRepositories);
    if processedRepositoriesFileName.name !in checkpoints {
      EmptyStorePlansEverything(allRepositories);
    }
    outcome := Indexing(processedRepositoriesFileName, processedRepositories, remainingRepositories);
  }

  /** With no store recorded yet, the plan for `r1, r2, r3` is all three; once `r1` is
      recorded, it is `r2, r3`. */
  lemma ResumeScenario(r1: Repo, r2: Repo, r3: Repo, followers: Followers)
    requires r1.name == "r1" && r2.name == "r2" && r3.name == "r3"
    ensures Remaining([r1, r2, r3], map[]) == [r1, r2, r3]
    ensures Remaining([r1, r2, r3], map["r1" := followers]) == [r2, r3]
  {
    EmptyStorePlansEverything([r1, r2, r3]);
    var s := [r1, r2, r3];
    assert s[1..] == [r2, r3] && s[1..][1..] == [r3] && s[1..][1..][1..] == [];
    var m := map["r1" := followers];
    assert "r2" !in m && "r3" !in m by {
      assert "r2"[1] != "r1"[1] && "r3"[1] != "r1"[1];
    }
    assert Remaining([r3], m) == [r3];
    assert Remaining([r2, r3], m) == [r2] + Remaining([r3], m);
    assert Remaining(s, m) == Remaining([r2, r3], m);
  }
}
