/** The cluster producer `insert_clusters` of `src/cli/cluster_tool.rs` over the cluster table of `src/db.rs`: a run
    continues after the newest stored cluster of its interval length. */
module ClusterTool {
  import opened Common
  import opened Instants
  import opened ClusterQueries
  import ClusterService

  const MAX_INTERVAL_SECONDS: int := 32_767

  /** A cluster as calculated; the shape as the WKB it is stored as. */
  datatype Cluster = Cluster(timestamp: Option<int>, seconds: int, shape: Option<seq<Byte>>, strikeCount: int)

  datatype InsertError = IntervalTooLong | NoTimestamp | NoShape

  /** The row a cluster is stored as: the driver narrows the length to 16 bits and the strike count to 32. */
  function RowOf(c: Cluster): ClusterRow
    requires c.timestamp.Some? && c.shape.Some?
  {
    ClusterRow(Micros(c.timestamp.value), Wrap16(c.seconds), c.shape.value, Wrap32(c.strikeCount))
  }

  /** Whether a cluster is newer, in whole microseconds, than the newest stored one. */
  predicate Newer(latest: Option<int>, t: int) {
    latest.None? || latest.value < Micros(t)
  }

  /** The rows the first `n` clusters add, up to the first that cannot be inserted. */
  function Added(latest: Option<int>, clusters: seq<Cluster>, n: nat): (r: (seq<ClusterRow>, Option<InsertError>))
    requires n <= |clusters|
  {
    if n == 0 then ([], None)
    else
      var (rows, error) := Added(latest, clusters, n - 1);
      var c := clusters[n - 1];
      if error.Some? then (rows, error)
      else if c.timestamp.None? then (rows, Some(NoTimestamp))
      else if !Newer(latest, c.timestamp.value) then (rows, None)
      else if c.shape.None? then (rows, Some(NoShape))
      else (rows + [RowOf(c)], None)
  }

  function OfLength(rows: seq<ClusterRow>, seconds: int): (r: seq<ClusterRow>)
    ensures forall row :: row in r <==> row in rows && row.seconds == seconds
  {
    if rows == [] then []
    else
      var last := rows[|rows| - 1];
      var before := OfLength(rows[..|rows| - 1], seconds);
      assert forall row :: row in rows <==> row in rows[..|rows| - 1] || row == last;
      if last.seconds == seconds then before + [last] else before
  }

  ghost predicate IsLatest(rows: seq<ClusterRow>, length: int, t: Option<int>) {
    if t.None? then forall r :: r in rows ==> r.seconds != length
    else
      && (exists r :: r in rows && r.seconds == length && r.timestamp == t.value)
      && forall r :: r in rows && r.seconds == length ==> r.timestamp <= t.value
  }

  /** `get_latest_time`: the newest timestamp of the narrowed length. */
  function Latest(rows: seq<ClusterRow>, seconds: int): (t: Option<int>)
    ensures IsLatest(rows, Wrap16(seconds), t)
  {
    var own := OfLength(rows, Wrap16(seconds));
    assert own != [] ==> own[0] in own;
    ClusterService.Newest(own)
  }

  /** A whole run: the rows it adds, and its error. */
  function Run(rows: seq<ClusterRow>, seconds: int, clusters: seq<Cluster>): (seq<ClusterRow>, Option<InsertError>) {
    if seconds > MAX_INTERVAL_SECONDS then ([], Some(IntervalTooLong))
    else Added(Latest(rows, seconds), clusters, |clusters|)
  }

  /** The guard rejects exactly the lengths from the smallest `smallint` on that narrowing would change. */
  lemma LengthLimits(rows: seq<ClusterRow>, seconds: int, clusters: seq<Cluster>)
    ensures seconds > 0x7FFF ==> Run(rows, seconds, clusters) == ([], Some(IntervalTooLong))
    ensures seconds <= 0x7FFF ==> Run(rows, seconds, clusters).1 != Some(IntervalTooLong)
    ensures seconds >= -0x8000 ==> (Run(rows, seconds, clusters).1 == Some(IntervalTooLong) <==> Wrap16(seconds) != seconds)
  {
    NotTooLong(Latest(rows, seconds), clusters, |clusters|);
  }

  lemma {:induction false} NotTooLong(latest: Option<int>, clusters: seq<Cluster>, n: nat)
    requires n <= |clusters|
    ensures Added(latest, clusters, n).1 != Some(IntervalTooLong)
  {
    if n > 0 { NotTooLong(latest, clusters, n - 1); }
  }

  class ClusterStore {
    var rows: seq<ClusterRow>

    constructor (rows: seq<ClusterRow>)
      ensures this.rows == rows
    {
      this.rows := rows;
    }

    /** `StrikeClusterDb::insert`: a cluster without a shape is refused, every other one stored narrowed. */
    method Insert(c: Cluster) returns (ok: bool)
      requires c.timestamp.Some?
      modifies this
      ensures ok == c.shape.Some?
      ensures rows == if ok then old(rows) + [RowOf(c)] else old(rows)
    {
      ok := c.shape.Some?;
      if ok {
        rows := rows + [RowOf(c)];
      }
    }

    /** `insert_clusters` */
    method InsertClusters(seconds: int, clusters: seq<Cluster>) returns (r: Result<nat, InsertError>)
      modifies this
      ensures var (added, error) := Run(old(rows), seconds, clusters);
              rows == old(rows) + added && r == if error.Some? then Err(error.value) else Ok(|added|)
    {
      if seconds > MAX_INTERVAL_SECONDS {
        assert rows == old(rows) + [];
        return Err(IntervalTooLong);
      }
      var latest := Latest(rows, seconds);
      r := InsertNewer(latest, clusters);
    }

    /** The loop over the clusters. */
    method InsertNewer(latest: Option<int>, clusters: seq<Cluster>) returns (r: Result<nat, InsertError>)
      modifies this
      ensures var (added, error) := Added(latest, clusters, |clusters|);
              rows == old(rows) + added && r == if error.Some? then Err(error.value) else Ok(|added|)
    {
      var inserted := 0;
      var i := 0;
      while i < |clusters|
        invariant i <= |clusters|
        invariant Added(latest, clusters, i).1 == None
        invariant rows == old(rows) + Added(latest, clusters, i).0 && inserted == |Added(latest, clusters, i).0|
      {
        var cluster := clusters[i];
        i := i + 1;
        if cluster.timestamp.None? {
          AddedStops(latest, clusters, i, |clusters|);
          return Err(NoTimestamp);
        }
        if latest.Some? && Micros(cluster.timestamp.value) <= latest.value {
          continue;
        }
        var ok := Insert(cluster);
        if !ok {
          AddedStops(latest, clusters, i, |clusters|);
          return Err(NoShape);
        }
        inserted := inserted + 1;
      }
      r := Ok(inserted);
    }
  }

  lemma {:induction false} AddedStops(latest: Option<int>, clusters: seq<Cluster>, i: nat, n: nat)
    requires i <= n <= |clusters| && Added(latest, clusters, i).1.Some?
    ensures Added(latest, clusters, n) == Added(latest, clusters, i)
    decreases n
  {
    if i < n { AddedStops(latest, clusters, i, n - 1); }
  }

  // ---------- what a run adds ----------

  /** A cluster the run has stored. */
  ghost predicate Stores(latest: Option<int>, c: Cluster, row: ClusterRow) {
    c.timestamp.Some? && c.shape.Some? && Newer(latest, c.timestamp.value) && row == RowOf(c)
  }

  /** Every added row is a cluster's, and newer than what was stored of the run's length. */
  lemma {:induction false} AddedRows(latest: Option<int>, clusters: seq<Cluster>, n: nat, row: ClusterRow)
    requires n <= |clusters| && row in Added(latest, clusters, n).0
    ensures exists c :: c in clusters && Stores(latest, c, row)
  {
    if row in Added(latest, clusters, n - 1).0 {
      AddedRows(latest, clusters, n - 1, row);
    } else {
      assert clusters[n - 1] in clusters && Stores(latest, clusters[n - 1], row);
    }
  }

  /** Without an error every cluster has a timestamp and every newer one is added. */
  lemma {:induction false} NewerAreAdded(latest: Option<int>, clusters: seq<Cluster>, n: nat, i: nat)
    requires i < n <= |clusters| && Added(latest, clusters, n).1 == None
    ensures clusters[i].timestamp.Some?
    ensures Newer(latest, clusters[i].timestamp.value) ==>
              clusters[i].shape.Some? && RowOf(clusters[i]) in Added(latest, clusters, n).0
    decreases n
  {
    if i < n - 1 { NewerAreAdded(latest, clusters, n - 1, i); }
  }

  /** A run adds nothing and succeeds exactly when no cluster is newer and all have timestamps. */
  lemma {:induction false} NothingNewer(latest: Option<int>, clusters: seq<Cluster>, n: nat)
    requires n <= |clusters|
    ensures Added(latest, clusters, n) == ([], None) <==>
            forall i :: 0 <= i < n ==> clusters[i].timestamp.Some? && !Newer(latest, clusters[i].timestamp.value)
  {
    if n > 0 { NothingNewer(latest, clusters, n - 1); }
  }

  lemma {:induction false} AddedPrefix(latest: Option<int>, clusters: seq<Cluster>, c: Cluster, n: nat)
    requires n <= |clusters|
    ensures Added(latest, clusters + [c], n) == Added(latest, clusters, n)
  {
    if n > 0 { AddedPrefix(latest, clusters, c, n - 1); }
  }

  /** A run over no cluster adds nothing, and one more cluster adds its row exactly when it is newer, in whole
      microseconds, than every stored row of the run's narrowed length; a needed shape or timestamp that is missing ends
      the run. */
  lemma RunStep(rows: seq<ClusterRow>, seconds: int, clusters: seq<Cluster>, c: Cluster)
    requires seconds <= 32_767
    ensures Run(rows, seconds, []) == ([], None)
    ensures var (before, error) := Run(rows, seconds, clusters);
            error == None ==>
              Run(rows, seconds, clusters + [c]) ==
              if c.timestamp.None? then (before, Some(NoTimestamp))
              else if exists r :: r in rows && r.seconds == Wrap16(seconds) && r.timestamp >= Micros(c.timestamp.value)
                then (before, None)
              else if c.shape.None? then (before, Some(NoShape))
              else
                var row := ClusterRow(Micros(c.timestamp.value), Wrap16(c.seconds), c.shape.value, Wrap32(c.strikeCount));
                (before + [row], None)
    ensures Run(rows, seconds, clusters).1.Some? ==> Run(rows, seconds, clusters + [c]) == Run(rows, seconds, clusters)
  {
    AddedPrefix(Latest(rows, seconds), clusters, c, |clusters|);
  }

  // ---------- repeating a run ----------

  /** Every cluster is covered: not newer than what is stored, or not newer than a cluster of the run's own length. */
  ghost predicate Covered(rows: seq<ClusterRow>, seconds: int, clusters: seq<Cluster>) {
    forall c :: c in clusters && c.timestamp.Some? ==>
      !Newer(Latest(rows, seconds), c.timestamp.value) || HasOwnAtLeast(seconds, clusters, Micros(c.timestamp.value))
  }

  ghost predicate HasOwnAtLeast(seconds: int, clusters: seq<Cluster>, micros: int) {
    exists c :: c in clusters && c.timestamp.Some? && Wrap16(c.seconds) == Wrap16(seconds)
                && micros <= Micros(c.timestamp.value)
  }

  lemma RepeatAddsNothing(rows: seq<ClusterRow>, seconds: int, clusters: seq<Cluster>)
    requires Run(rows, seconds, clusters).1 == None && Covered(rows, seconds, clusters)
    ensures Run(rows + Run(rows, seconds, clusters).0, seconds, clusters) == ([], None)
  {
    var added := Run(rows, seconds, clusters).0;
    var latest, latest' := Latest(rows, seconds), Latest(rows + added, seconds);
    forall i | 0 <= i < |clusters|
      ensures clusters[i].timestamp.Some? && !Newer(latest', clusters[i].timestamp.value)
    {
      var c := clusters[i];
      assert c in clusters;
      NewerAreAdded(latest, clusters, |clusters|, i);
      if Newer(latest, c.timestamp.value) {
        var own :| own in clusters && own.timestamp.Some? && Wrap16(own.seconds) == Wrap16(seconds)
                   && Micros(c.timestamp.value) <= Micros(own.timestamp.value);
        var j :| 0 <= j < |clusters| && clusters[j] == own;
        NewerAreAdded(latest, clusters, |clusters|, j);
        assert RowOf(own) in rows + added;
      } else {
        var r :| r in rows && r.seconds == Wrap16(seconds) && r.timestamp == latest.value;
        assert r in rows + added;
      }
    }
    NothingNewer(latest', clusters, |clusters|);
  }

  lemma RepeatNeedsCover(rows: seq<ClusterRow>, seconds: int, clusters: seq<Cluster>)
    requires Run(rows, seconds, clusters).1 == None
    requires Run(rows + Run(rows, seconds, clusters).0, seconds, clusters) == ([], None)
    ensures Covered(rows, seconds, clusters)
  {
    var added := Run(rows, seconds, clusters).0;
    var latest, latest' := Latest(rows, seconds), Latest(rows + added, seconds);
    NothingNewer(latest', clusters, |clusters|);
    forall c | c in clusters && c.timestamp.Some? && Newer(latest, c.timestamp.value)
      ensures HasOwnAtLeast(seconds, clusters, Micros(c.timestamp.value))
    {
      var r :| r in rows + added && r.seconds == Wrap16(seconds) && r.timestamp == latest'.value;
      assert r !in rows;
      AddedRows(latest, clusters, |clusters|, r);
    }
  }

  /** Repeating a successful run inserts nothing exactly when every cluster is covered. */
  lemma RepeatedRun(rows: seq<ClusterRow>, seconds: int, clusters: seq<Cluster>)
    requires Run(rows, seconds, clusters).1 == None
    ensures Run(rows + Run(rows, seconds, clusters).0, seconds, clusters) == ([], None) <==>
            Covered(rows, seconds, clusters)
  {
    if Covered(rows, seconds, clusters) {
      RepeatAddsNothing(rows, seconds, clusters);
    }
    if Run(rows + Run(rows, seconds, clusters).0, seconds, clusters) == ([], None) {
      RepeatNeedsCover(rows, seconds, clusters);
    }
  }

  /** Clusters that carry the run's interval length, or one that narrows to it, cover each other. */
  lemma OwnClustersAreCovered(rows: seq<ClusterRow>, seconds: int, clusters: seq<Cluster>)
    requires forall c :: c in clusters ==> Wrap16(c.seconds) == Wrap16(seconds)
    ensures Covered(rows, seconds, clusters)
  {
    forall c | c in clusters && c.timestamp.Some? ensures HasOwnAtLeast(seconds, clusters, Micros(c.timestamp.value)) {
      assert c in clusters && Micros(c.timestamp.value) <= Micros(c.timestamp.value);
    }
  }

  /** Clusters whose lengths narrow to others than the run's do not count for it: a repeated run inserts the same rows
      again. */
  lemma OtherLengthsAreRepeated(rows: seq<ClusterRow>, seconds: int, clusters: seq<Cluster>)
    requires forall c :: c in clusters ==> Wrap16(c.seconds) != Wrap16(seconds)
    ensures Run(rows + Run(rows, seconds, clusters).0, seconds, clusters) == Run(rows, seconds, clusters)
  {
    if seconds <= MAX_INTERVAL_SECONDS {
      var added := Run(rows, seconds, clusters).0;
      forall row | row in added ensures row.seconds != Wrap16(seconds) {
        AddedRows(Latest(rows, seconds), clusters, |clusters|, row);
      }
      LatestStays(rows, added, Wrap16(seconds), Latest(rows, seconds));
      LatestIsUnique(rows + added, Wrap16(seconds), Latest(rows, seconds), Latest(rows + added, seconds));
    }
  }

  /** Rows of other lengths do not change the newest timestamp. */
  lemma LatestStays(rows: seq<ClusterRow>, added: seq<ClusterRow>, length: int, t: Option<int>)
    requires IsLatest(rows, length, t) && forall row :: row in added ==> row.seconds != length
    ensures IsLatest(rows + added, length, t)
  {
    if t.Some? {
      var r :| r in rows && r.seconds == length && r.timestamp == t.value;
      assert r in rows + added;
    }
  }

  lemma LatestIsUnique(rows: seq<ClusterRow>, length: int, a: Option<int>, b: Option<int>)
    requires IsLatest(rows, length, a) && IsLatest(rows, length, b)
    ensures a == b
  {
  }

  /** A cluster of 65596 seconds is stored as one of 60 seconds, and covers a run of 60. */
  lemma NarrowedLengthIsStored(t: int, shape: seq<Byte>)
    ensures var c := Cluster(Some(t), 65_596, Some(shape), 1);
            && RowOf(c).seconds == 60
            && Run([RowOf(c)], 60, [c]) == ([], None)
  {
    var c := Cluster(Some(t), 65_596, Some(shape), 1);
    var stored := [RowOf(c)];
    assert stored[0] in stored && stored[0].seconds == Wrap16(60);
    assert !Newer(Latest(stored, 60), t);
    assert Added(Latest(stored, 60), [c], 0) == ([], None);
  }

  // ---------- many runs ----------

  datatype Production = Production(seconds: int, clusters: seq<Cluster>)

  ghost predicate RunAt(tables: seq<seq<ClusterRow>>, runs: seq<Production>, k: nat)
    requires k < |runs| && |tables| == |runs| + 1
  {
    tables[k + 1] == tables[k] + Run(tables[k], runs[k].seconds, runs[k].clusters).0
  }

  /** The table before every run, and after the last; a failed run leaves what it had inserted. */
  ghost predicate IsHistory(tables: seq<seq<ClusterRow>>, runs: seq<Production>) {
    |tables| == |runs| + 1 && forall k :: 0 <= k < |runs| ==> RunAt(tables, runs, k)
  }

  /** Over any sequence of runs, what a run inserts is strictly newer, in whole microseconds, than everything stored
      before it of its interval length. */
  lemma RunsAreStrictlyNewer(tables: seq<seq<ClusterRow>>, runs: seq<Production>, k: nat, row: ClusterRow,
                             earlier: ClusterRow)
    requires IsHistory(tables, runs) && k < |runs|
    requires row in Run(tables[k], runs[k].seconds, runs[k].clusters).0
    requires earlier in tables[k] && earlier.seconds == Wrap16(runs[k].seconds)
    ensures earlier.timestamp < row.timestamp
  {
    AddedRows(Latest(tables[k], runs[k].seconds), runs[k].clusters, |runs[k].clusters|, row);
  }

  lemma RunKeepsRows(tables: seq<seq<ClusterRow>>, runs: seq<Production>, k: nat, row: ClusterRow)
    requires IsHistory(tables, runs) && k < |runs|
    requires row in tables[k] || row in Run(tables[k], runs[k].seconds, runs[k].clusters).0
    ensures row in tables[k + 1]
  {
    assert RunAt(tables, runs, k);
  }

  lemma {:induction false} EarlierRowsStay(tables: seq<seq<ClusterRow>>, runs: seq<Production>, j: nat, k: nat,
                                           row: ClusterRow)
    requires IsHistory(tables, runs) && j <= k <= |runs| && row in tables[j]
    ensures row in tables[k]
    decreases k
  {
    if j < k {
      EarlierRowsStay(tables, runs, j, k - 1, row);
      RunKeepsRows(tables, runs, k - 1, row);
    }
  }

  /** What different runs of one interval length insert never overlaps in time: a later run's rows are all newer. */
  lemma LaterRunsAreNewer(tables: seq<seq<ClusterRow>>, runs: seq<Production>, j: nat, k: nat, row: ClusterRow,
                          later: ClusterRow)
    requires IsHistory(tables, runs) && j < k < |runs| && Wrap16(runs[j].seconds) == Wrap16(runs[k].seconds) == row.seconds
    requires row in Run(tables[j], runs[j].seconds, runs[j].clusters).0
    requires later in Run(tables[k], runs[k].seconds, runs[k].clusters).0
    ensures row.timestamp < later.timestamp
  {
    RunKeepsRows(tables, runs, j, row);
    EarlierRowsStay(tables, runs, j + 1, k, row);
    RunsAreStrictlyNewer(tables, runs, k, later, row);
  }
}
