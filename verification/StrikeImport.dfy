/** The streamed import of `src/cli/import_tool.rs`: batches are inserted as they come and committed group by
    group. */
module StrikeImport {
  import opened Common
  import opened StrikeTable

  const STRIKE_GROUP_SIZE: nat := 10_000

  class ChunkInserter {
    const executor: Executor
    const region: int
    var inserted: nat
    var committedGroups: nat

    /** The rows stored before the import, and the strikes accepted by it so far. */
    ghost const base: seq<Row>
    ghost const baseCommits: nat
    ghost var accepted: seq<Strike>

    constructor (executor: Executor, region: int)
      requires executor.pending == []
      ensures Valid() && this.executor == executor && this.region == region && accepted == []
      ensures base == executor.committed && baseCommits == executor.commits
    {
      this.executor, this.region, inserted, committedGroups := executor, region, 0, 0;
      base, baseCommits, accepted := executor.committed, executor.commits, [];
    }

    /** Every accepted strike is stored once, in order; every complete group of 10000 has been committed, one commit
        each, and fewer rows than a group are uncommitted. */
    ghost predicate Valid()
      reads this, executor
    {
      && Dated(accepted) && inserted == |accepted|
      && executor.Rows() == base + RowsOf(accepted, Some(region))
      && (executor.autocommit ==> executor.pending == [])
      && committedGroups == inserted / 10_000
      && executor.commits == baseCommits + committedGroups
      && |executor.pending| <= inserted % 10_000
    }

    /** `accept`: one batch. */
    method Accept(strikes: seq<Strike>) returns (r: Result<(), string>)
      requires Valid()
      modifies this, executor
      ensures r.Ok? ==> Valid() && accepted == old(accepted) + strikes
      ensures Dated(strikes) && (forall n :: executor.works(n)) ==> r.Ok?
      ensures r.Err? ==> inserted == old(inserted) && committedGroups == old(committedGroups)
                         && (!executor.autocommit ==> executor.committed == old(executor.committed))
    {
      var added := InsertMany(executor, strikes, Some(region));
      if added.Err? {
        return Err(added.error);
      }
      RowsAppend(accepted, strikes, Some(region));
      assert base + RowsOf(accepted, Some(region)) + RowsOf(strikes, Some(region)) ==
             base + (RowsOf(accepted, Some(region)) + RowsOf(strikes, Some(region)));
      inserted := inserted + added.value;
      accepted := accepted + strikes;
      var groups := inserted / STRIKE_GROUP_SIZE;
      GroupsGrow(old(inserted), added.value);
      CommitGroups(groups);
      r := Ok(());
    }

    /** The commits of the groups completed by a batch. */
    method CommitGroups(groups: nat)
      requires groups >= committedGroups
      modifies this`committedGroups, executor`committed, executor`pending, executor`commits
      ensures committedGroups == groups
      ensures executor.commits == old(executor.commits) + (groups - old(committedGroups))
      ensures executor.Rows() == old(executor.Rows())
      ensures executor.pending == if groups > old(committedGroups) then [] else old(executor.pending)
    {
      while committedGroups < groups
        invariant old(committedGroups) <= committedGroups <= groups
        invariant executor.commits == old(executor.commits) + (committedGroups - old(committedGroups))
        invariant executor.Rows() == old(executor.Rows())
        invariant executor.pending == if committedGroups > old(committedGroups) then [] else old(executor.pending)
      {
        committedGroups := committedGroups + 1;
        executor.Commit();
      }
    }

    /** `finish`: nothing is left uncommitted, and there was one commit for each group begun. */
    method Finish()
      requires Valid()
      modifies executor
      ensures executor.pending == [] && executor.committed == base + RowsOf(accepted, Some(region))
      ensures executor.commits == baseCommits + (inserted + 9_999) / 10_000
    {
      CeilingDivision(inserted);
      if inserted > committedGroups * STRIKE_GROUP_SIZE {
        executor.Commit();
      }
      assert executor.committed + [] == executor.committed;
    }
  }

  lemma GroupsGrow(before: nat, added: nat)
    ensures before / STRIKE_GROUP_SIZE <= (before + added) / STRIKE_GROUP_SIZE
    ensures before / STRIKE_GROUP_SIZE == (before + added) / STRIKE_GROUP_SIZE ==>
              (before + added) % STRIKE_GROUP_SIZE == before % STRIKE_GROUP_SIZE + added
  {
  }

  lemma CeilingDivision(n: nat)
    ensures (n + STRIKE_GROUP_SIZE - 1) / STRIKE_GROUP_SIZE ==
            n / STRIKE_GROUP_SIZE + if n > n / STRIKE_GROUP_SIZE * STRIKE_GROUP_SIZE then 1 else 0
    ensures n > n / STRIKE_GROUP_SIZE * STRIKE_GROUP_SIZE <==> n % STRIKE_GROUP_SIZE != 0
  {
  }

  function Concat(batches: seq<seq<Strike>>, n: nat): seq<Strike>
    requires n <= |batches|
  {
    if n == 0 then [] else Concat(batches, n - 1) + batches[n - 1]
  }

  /** An import of any batches on a connection that works: all strikes are committed in order, each once, with
      ceil(n / 10000) commits. */
  method ImportBatches(executor: Executor, region: int, batches: seq<seq<Strike>>) returns (r: Result<nat, string>)
    requires executor.pending == []
    modifies executor
    ensures (forall i :: 0 <= i < |batches| ==> Dated(batches[i])) && (forall n :: executor.works(n)) ==> r.Ok?
    ensures r.Ok? ==> var all := Concat(batches, |batches|);
              && Dated(all) && r.value == |all|
              && executor.pending == []
              && executor.committed == old(executor.committed) + RowsOf(all, Some(region))
              && executor.commits == old(executor.commits) + (|all| + 9_999) / 10_000
  {
    var inserter := new ChunkInserter(executor, region);
    var i := 0;
    while i < |batches|
      invariant i <= |batches| && inserter.Valid() && inserter.executor == executor && inserter.region == region
      invariant fresh(inserter)
      invariant inserter.accepted == Concat(batches, i)
      invariant inserter.base == old(executor.committed) && inserter.baseCommits == old(executor.commits)
    {
      var accepted := inserter.Accept(batches[i]);
      if accepted.Err? {
        return Err(accepted.error);
      }
      i := i + 1;
    }
    inserter.Finish();
    r := Ok(inserter.inserted);
  }
}
