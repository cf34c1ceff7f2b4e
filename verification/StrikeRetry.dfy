/** Repeating an update that failed (`src/cli/update_tool.rs`) behind an executor that commits every statement: the new
    strikes of the statements before the failed one are stored. */
module StrikeRetry {
  import opened Common
  import opened Instants
  import opened StrikeTable
  import opened StrikeUpdate

  /** An update of a table with downloaded strikes. */
  datatype Update = Update(round: Rounding, table: seq<Row>, strikes: seq<Strike>, hours: int, now: int) {
    function Start(): int {
      now - hours * NANOS_PER_HOUR
    }

    function Existing(): set<Key> {
      KeysIn(round, table, Start(), now)
    }

    /** A listed strike in the window, older than a minute and not stored there. */
    predicate Fresh(s: Strike) {
      IsNew(round, Existing(), s, Start(), now)
    }

    function Kept(known: set<Key>, listed: seq<Strike>): (r: seq<Strike>)
      ensures Dated(r)
    {
      Filter(round, known, listed, Start(), now)
    }

    function New(): (r: seq<Strike>)
      ensures Dated(r)
    {
      NewStrikes(round, table, strikes, hours, now)
    }

    /** How many new strikes are listed before position `i`: the place of its strike among the new ones. */
    function Place(i: nat): nat
      requires i <= |strikes|
    {
      |Kept(Existing(), strikes[..i])|
    }

    /** What a run leaves that failed with the first `n` new strikes stored. */
    function Partly(n: nat): seq<Row>
      requires n <= |New()|
    {
      table + RowsOf(New()[..n], None)
    }

    /** What its repetition with the same strikes and clock inserts. */
    function Again(n: nat): (r: seq<Strike>)
      requires n <= |New()|
      ensures Dated(r)
    {
      NewStrikes(round, Partly(n), strikes, hours, now)
    }

    /** The repetition leaves the table of one undisturbed run. */
    ghost predicate RetryLeavesSame(n: nat)
      requires n <= |New()|
    {
      Updated(round, Partly(n), strikes, hours, now) == Updated(round, table, strikes, hours, now)
    }

    /** Wherever a run can fail, its repetition completes it. */
    ghost predicate CanBeRepeated() {
      forall n :: 0 <= n <= |New()| && FailurePoint(n, |New()|) ==> RetryLeavesSame(n)
    }
  }

  /** The failure points are exactly the places a failed run leaves, whatever statement fails. */
  lemma FailurePointsAreLeft(u: Update, n: nat)
    requires n <= |u.New()|
    ensures FailurePoint(n, |u.New()|) <==>
            exists works, first :: StoppedAt(works, first, u.New(), n, None, u.table, u.Partly(n))
  {
    if FailurePoint(n, |u.New()|) {
      assert StoppedAt(i => i != StatementsFor(n), 0, u.New(), n, None, u.table, u.Partly(n));
    }
  }

  // ---------- filtering ----------

  lemma {:induction false} FilterConcat(u: Update, known: set<Key>, a: seq<Strike>, b: seq<Strike>)
    ensures u.Kept(known, a + b) == u.Kept(known, a) + u.Kept(known, b)
    decreases |b|
  {
    if b == [] {
      assert a + b == a;
    } else {
      var last := |b| - 1;
      assert (a + b)[..|a + b| - 1] == a + b[..last];
      FilterConcat(u, known, a, b[..last]);
    }
  }

  /** Strikes not known are among those not known before. */
  lemma {:induction false} FilterOfFilter(u: Update, existing: set<Key>, known: set<Key>, listed: seq<Strike>)
    requires existing <= known
    ensures u.Kept(known, u.Kept(existing, listed)) == u.Kept(known, listed)
  {
    if listed != [] {
      var last := |listed| - 1;
      var before := u.Kept(existing, listed[..last]);
      FilterOfFilter(u, existing, known, listed[..last]);
      FilterConcat(u, known, before, [listed[last]]);
      assert u.Kept(known, []) == [] && [listed[last]][..0] == [];
    }
  }

  /** A filter keeps everything exactly when it keeps each strike, and is shorter otherwise. */
  lemma {:induction false} FilterLength(u: Update, known: set<Key>, listed: seq<Strike>)
    ensures |u.Kept(known, listed)| <= |listed|
    ensures u.Kept(known, listed) == listed <==> |u.Kept(known, listed)| == |listed|
    ensures |u.Kept(known, listed)| == |listed| <==>
            forall i :: 0 <= i < |listed| ==> IsNew(u.round, known, listed[i], u.Start(), u.now)
  {
    if listed != [] {
      FilterLength(u, known, listed[..|listed| - 1]);
    }
  }

  // ---------- what is known after a failure ----------

  /** The known keys are the existing ones and those the first `n` strikes are stored under. */
  ghost predicate KnownWith(u: Update, existing: set<Key>, known: set<Key>, all: seq<Strike>, n: nat)
    requires n <= |all| && Dated(all)
  {
    forall k :: k in known <==> k in existing || exists i :: 0 <= i < n && StoredKey(u.round, all[i]) == k
  }

  lemma KnownAfterFailure(u: Update, n: nat)
    requires n <= |u.New()|
    ensures KnownWith(u, u.Existing(), KeysIn(u.round, u.Partly(n), u.Start(), u.now), u.New(), n)
  {
    var all := u.New();
    KeysOfBoth(u.round, u.table, RowsOf(all[..n], None), u.Start(), u.now);
    forall key
      ensures key in KeysIn(u.round, RowsOf(all[..n], None), u.Start(), u.now) <==>
              exists i :: 0 <= i < n && StoredKey(u.round, all[i]) == key
    {
      KeysOfNew(u.round, u.Existing(), u.strikes, u.Start(), u.now, n, key);
    }
  }

  ghost function KnownAfter(u: Update, n: nat): set<Key>
    requires n <= |u.New()|
  {
    KeysIn(u.round, u.Partly(n), u.Start(), u.now)
  }

  /** A stored strike is inserted again exactly when it is not found under its own key. */
  lemma StoredIsNew(u: Update, n: nat, i: nat)
    requires i < n <= |u.New()| && IsSmallint(u.New()[i].timestamp.nanosecond)
    ensures IsNew(u.round, KnownAfter(u, n), u.New()[i], u.Start(), u.now) <==> !FitsLateral(u.New()[i])
  {
    var s := u.New()[i];
    KnownAfterFailure(u, n);
    assert s in u.New();
    if FitsLateral(s) {
      StoredKeyIsReadBack(u.round, s);
    } else {
      forall k | 0 <= k < n ensures StoredKey(u.round, u.New()[k]) != KeyOf(u.round, s) {
        StoredKeyParts(u.round, u.New()[k]);
      }
    }
  }

  /** No strike of the first `n` new ones is found, once stored, under the key of the new one at `j`. */
  ghost predicate NotHidden(u: Update, n: nat, j: nat)
    requires n <= |u.New()| && j < |u.New()|
  {
    forall i :: 0 <= i < n ==> StoredKey(u.round, u.New()[i]) != KeyOf(u.round, u.New()[j])
  }

  /** A strike behind the failure is inserted exactly when no stored one hides it. */
  lemma OtherIsNew(u: Update, n: nat, j: nat)
    requires n <= j < |u.New()|
    ensures IsNew(u.round, KnownAfter(u, n), u.New()[j], u.Start(), u.now) <==> NotHidden(u, n, j)
  {
    KnownAfterFailure(u, n);
    assert u.New()[j] in u.New();
  }

  lemma AgainParts(u: Update, n: nat)
    requires n <= |u.New()|
    ensures u.Again(n) == u.Kept(KnownAfter(u, n), u.New()[..n]) + u.Kept(KnownAfter(u, n), u.New()[n..])
  {
    KnownAfterFailure(u, n);
    FilterOfFilter(u, u.Existing(), KnownAfter(u, n), u.strikes);
    FilterConcat(u, KnownAfter(u, n), u.New()[..n], u.New()[n..]);
    assert u.New()[..n] + u.New()[n..] == u.New();
  }

  lemma RetryRows(u: Update, n: nat)
    requires n <= |u.New()|
    ensures u.RetryLeavesSame(n) ==> |u.Again(n)| == |u.New()| - n
    ensures u.Again(n) == u.New()[n..] ==> u.RetryLeavesSame(n)
  {
    var all := u.New();
    RowsAppend(all[..n], all[n..], None);
    assert all[..n] + all[n..] == all;
    assert |Updated(u.round, u.Partly(n), u.strikes, u.hours, u.now)| == |u.table| + n + |u.Again(n)|;
    assert |Updated(u.round, u.table, u.strikes, u.hours, u.now)| == |u.table| + |all|;
  }

  /** The first `n` new strikes have lateral errors that fit their column. */
  ghost predicate StoredFit(u: Update, n: nat)
    requires n <= |u.New()|
  {
    forall i :: 0 <= i < n ==> FitsLateral(u.New()[i])
  }

  /** No new strike behind the first `n` is hidden by one of them. */
  ghost predicate StoredApart(u: Update, n: nat)
    requires n <= |u.New()|
  {
    forall j :: n <= j < |u.New()| ==> NotHidden(u, n, j)
  }

  lemma HeadAgain(u: Update, n: nat)
    requires n <= |u.New()| && NanosFit(u.strikes)
    ensures u.Kept(KnownAfter(u, n), u.New()[..n]) == [] <==> StoredFit(u, n)
  {
    var head := u.New()[..n];
    forall i | 0 <= i < n
      ensures head[i] in u.Kept(KnownAfter(u, n), head) <==> !FitsLateral(u.New()[i])
    {
      assert u.New()[i] in u.New() && head[i] in head;
      StoredIsNew(u, n, i);
    }
    if u.Kept(KnownAfter(u, n), head) != [] {
      var s := u.Kept(KnownAfter(u, n), head)[0];
      assert s in u.Kept(KnownAfter(u, n), head);
      var i :| 0 <= i < n && head[i] == s;
      assert !FitsLateral(u.New()[i]);
    }
  }

  lemma TailAgain(u: Update, n: nat)
    requires n <= |u.New()|
    ensures var tail, kept := u.New()[n..], u.Kept(KnownAfter(u, n), u.New()[n..]);
            if StoredApart(u, n) then kept == tail else |kept| < |tail|
  {
    var tail := u.New()[n..];
    FilterLength(u, KnownAfter(u, n), tail);
    forall j | n <= j < |u.New()|
      ensures IsNew(u.round, KnownAfter(u, n), tail[j - n], u.Start(), u.now) <==> NotHidden(u, n, j)
    {
      OtherIsNew(u, n, j);
    }
    forall k | 0 <= k < |tail|
      ensures IsNew(u.round, KnownAfter(u, n), tail[k], u.Start(), u.now) <==> NotHidden(u, n, k + n)
    {
      OtherIsNew(u, n, k + n);
    }
  }

  /** One failure: with the stored strikes fitting, the repetition completes it exactly when none of them hides another
      one; with none hidden, exactly when they fit. */
  lemma RetryAt(u: Update, n: nat)
    requires n <= |u.New()| && NanosFit(u.strikes)
    ensures StoredFit(u, n) ==> (u.RetryLeavesSame(n) <==> StoredApart(u, n))
    ensures StoredApart(u, n) ==> (u.RetryLeavesSame(n) <==> StoredFit(u, n))
  {
    AgainParts(u, n);
    RetryRows(u, n);
    HeadAgain(u, n);
    TailAgain(u, n);
  }

  // ---------- statements ----------

  /** The new strike at place `a` is inserted by an earlier statement than the one at `b`. */
  predicate Earlier(a: nat, b: nat) {
    a / MAX_STRIKES_PER_INSERT < b / MAX_STRIKES_PER_INSERT
  }

  /** Two places are in different statements exactly when a run can fail between them. */
  lemma EarlierMeaning(a: nat, b: nat, total: nat)
    requires b < total
    ensures Earlier(a, b) <==> exists n: nat :: FailurePoint(n, total) && a < n <= b
  {
    assert MAX_STRIKES_PER_INSERT == 7_281;
    if Earlier(a, b) {
      var n := (a / 7_281 + 1) * 7_281;
      assert FailurePoint(n, total) && a < n <= b;
    }
    if exists n: nat :: FailurePoint(n, total) && a < n <= b {
      var n: nat :| FailurePoint(n, total) && a < n <= b;
      assert n == n / 7_281 * 7_281;
      assert a / 7_281 < n / 7_281 <= b / 7_281;
    }
  }

  lemma KeptStep(u: Update, known: set<Key>, m: nat)
    requires m < |u.strikes|
    ensures u.Kept(known, u.strikes[..m + 1]) ==
            u.Kept(known, u.strikes[..m])
            + if IsNew(u.round, known, u.strikes[m], u.Start(), u.now) then [u.strikes[m]] else []
  {
    assert u.strikes[..m + 1][..m] == u.strikes[..m];
  }

  /** Reading position `k` of a list keeps its strike or drops it. */
  ghost predicate Reads(kept: nat -> seq<Strike>, fits: nat -> bool, listed: seq<Strike>, k: nat)
    requires k < |listed|
  {
    kept(k + 1) == kept(k) + if fits(k) then [listed[k]] else []
  }

  lemma {:induction false} KeptAtPlace(kept: nat -> seq<Strike>, fits: nat -> bool, listed: seq<Strike>, m: nat, i: nat)
    requires i < m <= |listed| && fits(i)
    requires forall k: nat :: k < |listed| ==> Reads(kept, fits, listed, k)
    ensures |kept(i)| < |kept(m)| && kept(m)[|kept(i)|] == listed[i]
  {
    assert Reads(kept, fits, listed, m - 1);
    if i < m - 1 {
      KeptAtPlace(kept, fits, listed, m - 1, i);
    }
  }

  function NewBefore(u: Update): nat -> seq<Strike> {
    (k: nat) => if k <= |u.strikes| then u.Kept(u.Existing(), u.strikes[..k]) else []
  }

  function NewAt(u: Update): nat -> bool {
    (k: nat) => k < |u.strikes| && u.Fresh(u.strikes[k])
  }

  lemma ReadsNew(u: Update, k: nat)
    requires k < |u.strikes|
    ensures Reads(NewBefore(u), NewAt(u), u.strikes, k)
  {
    KeptStep(u, u.Existing(), k);
  }

  lemma AllNew(u: Update)
    ensures NewBefore(u)(|u.strikes|) == u.New()
  {
    assert u.strikes[..|u.strikes|] == u.strikes;
  }

  /** A new strike is the one at its place among the new ones. */
  lemma AtItsPlace(u: Update, i: nat)
    requires i < |u.strikes| && u.Fresh(u.strikes[i])
    ensures u.Place(i) < |u.New()| && u.New()[u.Place(i)] == u.strikes[i]
  {
    forall k: nat | k < |u.strikes| ensures Reads(NewBefore(u), NewAt(u), u.strikes, k) {
      ReadsNew(u, k);
    }
    KeptAtPlace(NewBefore(u), NewAt(u), u.strikes, |u.strikes|, i);
    AllNew(u);
  }

  /** Each place among the new ones is that of a listed strike. */
  lemma {:induction false} HasPlace(u: Update, m: nat, k: nat) returns (i: nat)
    requires m <= |u.strikes| && k < u.Place(m)
    ensures i < m && u.Fresh(u.strikes[i]) && u.Place(i) == k
  {
    KeptStep(u, u.Existing(), m - 1);
    if k < u.Place(m - 1) {
      i := HasPlace(u, m - 1, k);
    } else {
      i := m - 1;
    }
  }

  // ---------- which runs can be repeated ----------

  /** The strike listed at `i` is new. */
  predicate ListedNew(u: Update, i: int) {
    0 <= i < |u.strikes| && u.Fresh(u.strikes[i])
  }

  /** The strikes listed at `i` and `j` are new, and `i` is inserted by an earlier statement. */
  predicate InOrder(u: Update, i: int, j: int) {
    ListedNew(u, i) && ListedNew(u, j) && Earlier(u.Place(i), u.Place(j))
  }

  /** The strike listed at `i` is new and not inserted by the last statement. */
  predicate NotLast(u: Update, i: int) {
    ListedNew(u, i) && Earlier(u.Place(i), |u.New()| - 1)
  }

  /** The new strikes listed have lateral errors that fit their column, but for those of the last statement. */
  ghost predicate EarlierFit(u: Update) {
    forall i :: NotLast(u, i) ==> FitsLateral(u.strikes[i])
  }

  /** No new strike listed is found, once stored, under the key of one of a later statement. */
  ghost predicate NoneHidden(u: Update) {
    forall i, j :: InOrder(u, i, j) ==> StoredKey(u.round, u.strikes[i]) != KeyOf(u.round, u.strikes[j])
  }

  /** New strikes listed with one key belong to one statement. */
  ghost predicate KeysInOneStatement(u: Update) {
    forall i, j :: InOrder(u, i, j) ==> KeyOf(u.round, u.strikes[i]) != KeyOf(u.round, u.strikes[j])
  }

  lemma PlaceOf(u: Update, k: nat) returns (i: nat)
    requires k < |u.New()|
    ensures ListedNew(u, i) && u.Place(i) == k && u.New()[k] == u.strikes[i]
  {
    assert u.strikes[..|u.strikes|] == u.strikes;
    i := HasPlace(u, |u.strikes|, k);
    AtItsPlace(u, i);
  }

  lemma EarlierFitAt(u: Update, n: nat, k: nat)
    requires EarlierFit(u) && FailurePoint(n, |u.New()|) && k < n
    ensures FitsLateral(u.New()[k])
  {
    var i := PlaceOf(u, k);
    EarlierMeaning(k, |u.New()| - 1, |u.New()|);
    assert NotLast(u, i);
  }

  /** There is a failure behind a strike that is not inserted by the last statement. */
  lemma FailureBehind(u: Update, i: int) returns (n: nat)
    requires NotLast(u, i)
    ensures FailurePoint(n, |u.New()|) && u.Place(i) < n && u.New()[u.Place(i)] == u.strikes[i]
  {
    AtItsPlace(u, i);
    EarlierMeaning(u.Place(i), |u.New()| - 1, |u.New()|);
    n :| FailurePoint(n, |u.New()|) && u.Place(i) < n;
  }

  lemma EarlierFitMeaning(u: Update)
    ensures EarlierFit(u) <==>
            forall n :: 0 <= n <= |u.New()| && FailurePoint(n, |u.New()|) ==> StoredFit(u, n)
  {
    if EarlierFit(u) {
      forall n, k | 0 <= n <= |u.New()| && FailurePoint(n, |u.New()|) && 0 <= k < n ensures FitsLateral(u.New()[k]) {
        EarlierFitAt(u, n, k);
      }
    } else {
      var i :| NotLast(u, i) && !FitsLateral(u.strikes[i]);
      var n := FailureBehind(u, i);
      assert !StoredFit(u, n);
    }
  }

  lemma NoneHiddenAt(u: Update, n: nat, k: nat, j: nat)
    requires NoneHidden(u) && FailurePoint(n, |u.New()|) && k < n <= j < |u.New()|
    ensures StoredKey(u.round, u.New()[k]) != KeyOf(u.round, u.New()[j])
  {
    var a := PlaceOf(u, k);
    var b := PlaceOf(u, j);
    EarlierMeaning(k, j, |u.New()|);
    assert InOrder(u, a, b);
  }

  /** There is a failure between strikes of different statements. */
  lemma FailureBetween(u: Update, i: int, j: int) returns (n: nat)
    requires InOrder(u, i, j)
    ensures FailurePoint(n, |u.New()|) && u.Place(i) < n <= u.Place(j) < |u.New()|
    ensures u.New()[u.Place(i)] == u.strikes[i] && u.New()[u.Place(j)] == u.strikes[j]
  {
    AtItsPlace(u, i);
    AtItsPlace(u, j);
    EarlierMeaning(u.Place(i), u.Place(j), |u.New()|);
    n :| FailurePoint(n, |u.New()|) && u.Place(i) < n <= u.Place(j);
  }

  lemma NoneHiddenMeaning(u: Update)
    ensures NoneHidden(u) <==>
            forall n :: 0 <= n <= |u.New()| && FailurePoint(n, |u.New()|) ==> StoredApart(u, n)
  {
    if NoneHidden(u) {
      forall n, j, k | 0 <= n <= |u.New()| && FailurePoint(n, |u.New()|) && 0 <= k < n <= j < |u.New()|
        ensures StoredKey(u.round, u.New()[k]) != KeyOf(u.round, u.New()[j])
      {
        NoneHiddenAt(u, n, k, j);
      }
    } else {
      var i, j :| InOrder(u, i, j) && StoredKey(u.round, u.strikes[i]) == KeyOf(u.round, u.strikes[j]);
      var n := FailureBetween(u, i, j);
      assert !NotHidden(u, n, u.Place(j));
      assert !StoredApart(u, n);
    }
  }

  lemma EarlierTransfers(a: nat, b: nat, c: nat)
    ensures Earlier(a, b) && b <= c ==> Earlier(a, c)
  {
    assert MAX_STRIKES_PER_INSERT == 7_281;
    assert b <= c ==> b / 7_281 <= c / 7_281;
  }

  lemma EarlierIsNotLast(u: Update, i: int, j: int)
    requires InOrder(u, i, j)
    ensures NotLast(u, i)
  {
    AtItsPlace(u, j);
    EarlierTransfers(u.Place(i), u.Place(j), |u.New()| - 1);
  }

  lemma ListedFits(u: Update, i: int)
    requires NanosFit(u.strikes) && ListedNew(u, i) && FitsLateral(u.strikes[i])
    ensures StoredKey(u.round, u.strikes[i]) == KeyOf(u.round, u.strikes[i])
  {
    assert u.strikes[i] in u.strikes;
    StoredKeyIsReadBack(u.round, u.strikes[i]);
  }

  /** Fitting strikes are found under their own keys. */
  lemma HiddenBySameKey(u: Update)
    requires NanosFit(u.strikes) && EarlierFit(u)
    ensures NoneHidden(u) <==> KeysInOneStatement(u)
  {
    forall i, j | InOrder(u, i, j) ensures StoredKey(u.round, u.strikes[i]) == KeyOf(u.round, u.strikes[i]) {
      EarlierIsNotLast(u, i, j);
      ListedFits(u, i);
    }
  }

  lemma RetryEverywhere(u: Update)
    requires NanosFit(u.strikes)
    ensures EarlierFit(u) ==> (u.CanBeRepeated() <==> NoneHidden(u))
    ensures NoneHidden(u) ==> (u.CanBeRepeated() <==> EarlierFit(u))
  {
    EarlierFitMeaning(u);
    NoneHiddenMeaning(u);
    forall n | 0 <= n <= |u.New()| && FailurePoint(n, |u.New()|)
      ensures StoredFit(u, n) ==> (u.RetryLeavesSame(n) <==> StoredApart(u, n))
      ensures StoredApart(u, n) ==> (u.RetryLeavesSame(n) <==> StoredFit(u, n))
    {
      RetryAt(u, n);
    }
  }

  /** Wherever a run fails, its repetition with the same strikes and clock leaves the table of one undisturbed run,
      exactly when new strikes with one key are inserted by one statement; for strikes that fit their columns. */
  lemma RetryCompletes(u: Update)
    requires NanosFit(u.strikes) && EarlierFit(u)
    ensures u.CanBeRepeated() <==> KeysInOneStatement(u)
  {
    RetryEverywhere(u);
    HiddenBySameKey(u);
  }

  /** When no stored strike hides another, exactly when those not in the last statement fit their columns. */
  lemma RetryNeedsFitting(u: Update)
    requires NanosFit(u.strikes) && NoneHidden(u)
    ensures u.CanBeRepeated() <==> EarlierFit(u)
  {
    RetryEverywhere(u);
  }

  /** Whatever is listed, a run of one statement can be repeated: its failure stores nothing. */
  lemma OneStatementCanBeRepeated(u: Update)
    requires |u.New()| <= MAX_STRIKES_PER_INSERT
    ensures u.CanBeRepeated()
  {
    forall n | 0 <= n <= |u.New()| && FailurePoint(n, |u.New()|) ensures u.RetryLeavesSame(n) {
      assert n == 0;
      assert u.Partly(0) == u.table;
    }
  }

  /** A strike stored before the failure that does not fit its column is stored a second time. */
  lemma UnfittingIsStoredAgain(u: Update, n: nat, k: nat)
    requires FailurePoint(n, |u.New()|) && k < n && NanosFit(u.strikes) && !FitsLateral(u.New()[k])
    ensures u.New()[k] in u.Again(n)
  {
    assert u.New()[k] in u.New();
    StoredIsNew(u, n, k);
  }

  /** A strike stored before the failure hides another one with its key: the repetition leaves fewer rows. */
  lemma HiddenIsLost(u: Update, n: nat, k: nat, j: nat)
    requires k < n <= j < |u.New()| && StoredKey(u.round, u.New()[k]) == KeyOf(u.round, u.New()[j])
    ensures NanosFit(u.strikes) && StoredFit(u, n) ==> |u.Again(n)| < |u.New()| - n && !u.RetryLeavesSame(n)
  {
    assert !NotHidden(u, n, j) && !StoredApart(u, n);
    TailAgain(u, n);
    AgainParts(u, n);
    if NanosFit(u.strikes) { HeadAgain(u, n); }
    RetryRows(u, n);
  }

  lemma AllNewAgain(u: Update)
    requires forall i :: 0 <= i < |u.strikes| ==> u.Fresh(u.strikes[i])
    ensures u.New() == u.strikes
  {
    FilterLength(u, u.Existing(), u.strikes);
  }

  /** A new strike listed once more than one statement takes: when the second statement fails, the repetition inserts
      nothing, and one row is missing. */
  lemma StraddlingIsLost(u: Update, s: Strike)
    requires IsSmallint(s.timestamp.nanosecond) && FitsLateral(s) && u.Fresh(s)
    requires u.strikes == seq(MAX_STRIKES_PER_INSERT + 1, i => s)
    ensures u.New() == u.strikes && FailurePoint(MAX_STRIKES_PER_INSERT, |u.New()|)
    ensures u.Again(MAX_STRIKES_PER_INSERT) == [] && !u.CanBeRepeated()
  {
    AllNewAgain(u);
    assert u.New()[0] == s && u.New()[MAX_STRIKES_PER_INSERT] == s;
    StoredKeyIsReadBack(u.round, s);
    HiddenIsLost(u, MAX_STRIKES_PER_INSERT, 0, MAX_STRIKES_PER_INSERT);
  }
}
