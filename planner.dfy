/**
 * The work planner of followersIndexer.js: which repositories still need their
 * followers indexed, given the followers already recorded in the checkpoint file.
 */
module WorkPlanner {

  /** One record of the repositories file. Identity is `name`; the other fields
      are carried through unchanged. */
  datatype Repo = Repo(name: string, fields: map<string, string>)

  /** The follower logins recorded for one repository. */
  type Followers = seq<string>

  /** The contents of the followers (checkpoint) file: repository name to its followers. */
  type Store = map<string, Followers>

  /** The records of `all` whose name is not a key of `processed`, in their original order
      (getRemainingRepositories). */
  function Remaining(all: seq<Repo>, processed: Store): (r: seq<Repo>)
    ensures |r| <= |all|
    ensures forall x :: x in r ==> x in all && x.name !in processed
  {
    if all == [] then []
    else if all[0].name in processed then Remaining(all[1..], processed)
    else [all[0]] + Remaining(all[1..], processed)
  }

  /** `xs` can be obtained from `ys` by deleting elements: every element of `xs` comes
      from `ys` and their relative order is that of `ys`. */
  predicate IsSubsequence(xs: seq<Repo>, ys: seq<Repo>)
    decreases |ys|
  {
    if xs == [] then true
    else if ys == [] then false
    else (xs[0] == ys[0] && IsSubsequence(xs[1..], ys[1..])) || IsSubsequence(xs, ys[1..])
  }

  /** The set of repository names of a list. */
  function Names(all: seq<Repo>): set<string> {
    set i | 0 <= i < |all| :: all[i].name
  }

  /** No two records of the list share a name. */
  predicate DistinctNames(all: seq<Repo>) {
    forall i, j :: 0 <= i < j < |all| ==> all[i].name != all[j].name
  }

  /** A record is planned exactly when it is in the input and its name is not processed. */
  lemma {:induction false} RemainingMembership(all: seq<Repo>, processed: Store, x: Repo)
    ensures x in Remaining(all, processed) <==> x in all && x.name !in processed
  {
    if all != [] {
      RemainingMembership(all[1..], processed, x);
      assert x in all <==> x == all[0] || x in all[1..] by {
        assert all == [all[0]] + all[1..];
      }
    }
  }

  /** The plan keeps each unprocessed record as often as the input holds it and drops
      every processed one. */
  lemma {:induction false} RemainingMultiplicity(all: seq<Repo>, processed: Store, x: Repo)
    ensures multiset(Remaining(all, processed))[x]
            == if x.name in processed then 0 else multiset(all)[x]
  {
    if all != [] {
      RemainingMultiplicity(all[1..], processed, x);
      assert all == [all[0]] + all[1..];
      assert multiset(all) == multiset([all[0]]) + multiset(all[1..]);
      if all[0].name !in processed {
        var rest := Remaining(all[1..], processed);
        assert multiset([all[0]] + rest) == multiset([all[0]]) + multiset(rest);
      }
    }
  }

  /** Extending a subsequence's host at the front keeps it a subsequence. */
  lemma SubsequenceOfCons(xs: seq<Repo>, a: Repo, ys: seq<Repo>)
    requires IsSubsequence(xs, ys)
    ensures IsSubsequence(xs, [a] + ys)
  {
    assert ([a] + ys)[1..] == ys;
  }

  /** The plan is a subsequence of the input: relative order is preserved. */
  lemma {:induction false} RemainingIsSubsequence(all: seq<Repo>, processed: Store)
    ensures IsSubsequence(Remaining(all, processed), all)
  {
    if all != [] {
      RemainingIsSubsequence(all[1..], processed);
      var rest := Remaining(all[1..], processed);
      if all[0].name in processed {
        SubsequenceOfCons(rest, all[0], all[1..]);
        assert all == [all[0]] + all[1..];
      } else {
        assert ([all[0]] + rest)[0] == all[0];
        assert ([all[0]] + rest)[1..] == rest;
      }
    }
  }

  /** With nothing indexed (the fallback when the followers file cannot be read), the
      plan is the whole input. */
  lemma {:induction false} EmptyStorePlansEverything(all: seq<Repo>)
    ensures Remaining(all, map[]) == all
  {
    if all != [] {
      EmptyStorePlansEverything(all[1..]);
      assert all == [all[0]] + all[1..];
    }
  }

  /** Two stores that agree on which names of the input are processed give the same plan;
      in particular only the keys of the store matter, not the followers recorded. */
  lemma {:induction false} RemainingAgreeingStores(all: seq<Repo>, p1: Store, p2: Store)
    requires forall i :: 0 <= i < |all| ==> (all[i].name in p1 <==> all[i].name in p2)
    ensures Remaining(all, p1) == Remaining(all, p2)
  {
    if all != [] {
      assert all[0].name in p1 <==> all[0].name in p2;
      forall i | 0 <= i < |all[1..]|
        ensures all[1..][i].name in p1 <==> all[1..][i].name in p2
      {
        assert all[1..][i] == all[i + 1];
      }
      RemainingAgreeingStores(all[1..], p1, p2);
    }
  }

  /** Planning against the union of two stores is planning against one and then
      filtering that plan against the other. */
  lemma {:induction false} RemainingUnion(all: seq<Repo>, p1: Store, p2: Store)
    ensures Remaining(Remaining(all, p1), p2) == Remaining(all, p1 + p2)
  {
    if all != [] {
      RemainingUnion(all[1..], p1, p2);
      var rest := Remaining(all[1..], p1);
      if all[0].name !in p1 {
        assert ([all[0]] + rest)[0] == all[0];
        assert ([all[0]] + rest)[1..] == rest;
      }
    }
  }

  /** Filtering a plan again against the same store changes nothing. */
  lemma {:induction false} RemainingIdempotent(all: seq<Repo>, processed: Store)
    ensures Remaining(Remaining(all, processed), processed) == Remaining(all, processed)
  {
    RemainingUnion(all, processed, processed);
    assert processed + processed == processed;
  }

  /** Adding keys to the store never adds records to the plan: the plan against the larger
      store is the plan against the smaller one, filtered further, hence a subsequence of it
      and no longer. */
  lemma {:induction false} RemainingMonotone(all: seq<Repo>, p1: Store, p2: Store)
    requires p1.Keys <= p2.Keys
    ensures Remaining(all, p2) == Remaining(Remaining(all, p1), p2)
    ensures IsSubsequence(Remaining(all, p2), Remaining(all, p1))
    ensures |Remaining(all, p2)| <= |Remaining(all, p1)|
  {
    RemainingUnion(all, p1, p2);
    RemainingAgreeingStores(all, p1 + p2, p2);
    RemainingIsSubsequence(Remaining(all, p1), p2);
  }

  /** The plan is empty exactly when every name of the input is processed. */
  lemma {:induction false} RemainingEmptyIffAllProcessed(all: seq<Repo>, processed: Store)
    ensures Remaining(all, processed) == [] <==> forall i :: 0 <= i < |all| ==> all[i].name in processed
  {
    if all != [] {
      RemainingEmptyIffAllProcessed(all[1..], processed);
      if all[0].name in processed {
        forall i | 0 <= i < |all| && (forall j :: 0 <= j < |all[1..]| ==> all[1..][j].name in processed)
          ensures all[i].name in processed
        {
          if i > 0 { assert all[i] == all[1..][i - 1]; }
        }
        forall j | 0 <= j < |all[1..]| && (forall i :: 0 <= i < |all| ==> all[i].name in processed)
          ensures all[1..][j].name in processed
        {
          assert all[1..][j] == all[j + 1];
        }
      }
    }
  }

  /** The names of a non-empty list with unique names: its head's name, which is not among
      the names of its tail, and those. */
  lemma NamesOfTail(all: seq<Repo>)
    requires all != [] && DistinctNames(all)
    ensures DistinctNames(all[1..])
    ensures all[0].name !in Names(all[1..])
    ensures Names(all) == {all[0].name} + Names(all[1..])
  {
    var n, rest := all[0].name, all[1..];
    forall i, j | 0 <= i < j < |rest| ensures rest[i].name != rest[j].name {
      assert rest[i] == all[i + 1] && rest[j] == all[j + 1];
    }
    forall i | 0 <= i < |rest| ensures rest[i].name != n {
      assert rest[i] == all[i + 1];
    }
    forall m | m in Names(all) ensures m in {n} + Names(rest) {
      var i :| 0 <= i < |all| && all[i].name == m;
      if i > 0 { assert rest[i - 1] == all[i]; }
    }
    forall m | m in Names(rest) ensures m in Names(all) {
      var i :| 0 <= i < |rest| && rest[i].name == m;
      assert all[i + 1] == rest[i];
    }
  }

  /** When names are unique and the store only holds names of the input, the counts the
      script prints add up: Total == Processed + Remaining. */
  lemma {:induction false} StatisticsAddUp(all: seq<Repo>, processed: Store)
    requires DistinctNames(all)
    requires processed.Keys <= Names(all)
    ensures |Remaining(all, processed)| + |processed| == |all|
  {
    if all == [] {
      assert processed.Keys == {};
      assert processed == map[];
    } else {
      var n, rest := all[0].name, all[1..];
      NamesOfTail(all);
      if n in processed {
        var smaller := processed - {n};
        assert smaller.Keys == processed.Keys - {n};
        assert |smaller| == |processed| - 1 by {
          assert processed.Keys == smaller.Keys + {n};
          assert |processed.Keys| == |smaller.Keys| + 1;
        }
        forall i | 0 <= i < |rest| ensures rest[i].name in smaller <==> rest[i].name in processed {
          assert rest[i].name in Names(rest);
        }
        RemainingAgreeingStores(rest, smaller, processed);
        StatisticsAddUp(rest, smaller);
      } else {
        StatisticsAddUp(rest, processed);
      }
    }
  }

  /** getProcessedRepositories: the parsed followers file, or an empty store when the file
      is missing or does not parse. `checkpoints` maps each file name whose contents parse
      as a followers map to those contents. */
  method GetProcessedRepositories(fileName: string, checkpoints: map<string, Store>)
    returns (records: Store)
    ensures fileName in checkpoints ==> records == checkpoints[fileName]
    ensures fileName !in checkpoints ==> records == map[]
  {
    records := map[];
    if fileName in checkpoints {
      records := checkpoints[fileName];
    }
  }
}
