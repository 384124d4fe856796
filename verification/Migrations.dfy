/** Migrations tracked per shard by prefix and content hash. */
module Migrations {
  import opened Wrappers

  type ShardId = nat

  datatype Migration = Migration(prefix: string, sql: string)

  /** What was executed in a shard, and the tracking rows written with it. */
  datatype Schema = Schema(executed: seq<Migration>, tracked: seq<(string, string)>)

  const FRESH := Schema([], [])

  /** The hash of the content may be any function; nothing here asks it to be free of collisions. */
  type Hash = string -> string

  /** What a migration is tracked by. */
  function Row(m: Migration, hash: Hash): (string, string) {
    (m.prefix, hash(m.sql))
  }

  predicate HasRun(s: Schema, m: Migration, hash: Hash) {
    Row(m, hash) in s.tracked
  }

  function MigrateShard(s: Schema, m: Migration, hash: Hash): Schema {
    if HasRun(s, m, hash) then s
    else Schema(s.executed + [m], s.tracked + [Row(m, hash)])
  }

  function RunList(s: Schema, ms: seq<Migration>, hash: Hash): Schema {
    if ms == [] then s else MigrateShard(RunList(s, ms[..|ms| - 1], hash), ms[|ms| - 1], hash)
  }

  type Shards = map<ShardId, Schema>

  function MigrateAll(db: Shards, shards: seq<ShardId>, m: Migration, hash: Hash): Shards
    requires forall i | i in shards :: i in db
  {
    if shards == [] then db
    else
      assert shards[|shards| - 1] in shards;
      var before := MigrateAll(db, shards[..|shards| - 1], m, hash);
      var i := shards[|shards| - 1];
      if i in before then before[i := MigrateShard(before[i], m, hash)] else before
  }

  /** Every listed shard is migrated once, however often it is listed, and no other is touched. */
  lemma {:induction false} MigrateAllAt(db: Shards, shards: seq<ShardId>, m: Migration, hash: Hash)
    requires forall i | i in shards :: i in db
    ensures MigrateAll(db, shards, m, hash).Keys == db.Keys
    ensures forall i | i in db ::
              MigrateAll(db, shards, m, hash)[i] == if i in shards then MigrateShard(db[i], m, hash) else db[i]
  {
    if shards != [] {
      var front := shards[..|shards| - 1];
      MigrateAllAt(db, front, m, hash);
      assert shards == front + [shards[|shards| - 1]];
    }
  }

  function MigrateList(db: Shards, shards: seq<ShardId>, ms: seq<Migration>, hash: Hash): (r: Shards)
    requires forall i | i in shards :: i in db
    ensures r.Keys == db.Keys
  {
    if ms == [] then db
    else
      var before := MigrateList(db, shards, ms[..|ms| - 1], hash);
      MigrateAllAt(before, shards, ms[|ms| - 1], hash);
      MigrateAll(before, shards, ms[|ms| - 1], hash)
  }

  /** Migrating all shards through a list runs the list in each of them on its own. */
  lemma {:induction false} MigrateListAt(db: Shards, shards: seq<ShardId>, ms: seq<Migration>, hash: Hash)
    requires forall i | i in shards :: i in db
    ensures forall i | i in db ::
              MigrateList(db, shards, ms, hash)[i] == if i in shards then RunList(db[i], ms, hash) else db[i]
  {
    if ms != [] {
      MigrateListAt(db, shards, ms[..|ms| - 1], hash);
      MigrateAllAt(MigrateList(db, shards, ms[..|ms| - 1], hash), shards, ms[|ms| - 1], hash);
    }
  }

  /** Creates the schemas of shards that are new. */
  function Setup(db: Shards, shards: seq<ShardId>): (r: Shards)
    ensures forall i | i in shards :: i in r
  {
    map i | i in db.Keys + (set x | x in shards) :: if i in db then db[i] else FRESH
  }

  /** A transaction on the database: `db` is what it sees, `committed` what stays if it is dropped. */
  class Migrator {
    const hash: Hash
    const shards: seq<ShardId>
    var committed: Shards
    var db: Shards

    /** The schemas of all shards are there. */
    ghost predicate Ready()
      reads this
    {
      forall i | i in shards :: i in db
    }

    constructor (hash: Hash, shards: seq<ShardId>, committed: Shards)
      ensures this.hash == hash && this.shards == shards && this.committed == this.db == committed
    {
      this.hash, this.shards, this.committed, this.db := hash, shards, committed, committed;
    }

    /** Creates what schemas are missing. */
    method SetUp()
      modifies this`db
      ensures Ready() && db == Setup(old(db), shards)
    {
      db := Setup(db, shards);
    }

    /**
     Runs a migration in every shard that has not seen it.  `accepts` tells in which shards the
     statement executes; the first refusal ends the call, and `done` counts the shards before it.
     */
    method Migrate(m: Migration, accepts: ShardId -> bool) returns (ok: bool, done: nat)
      requires Ready()
      modifies this`db
      ensures Ready() && done <= |shards| && (ok <==> done == |shards|)
      ensures db == MigrateAll(old(db), shards[..done], m, hash) && db.Keys == old(db).Keys
      ensures forall i | i in db && i !in shards[..done] :: db[i] == old(db)[i]
      ensures forall i | i in shards[..done] && i in db ::
                var s, row := old(db)[i], (m.prefix, hash(m.sql));
                db[i] == if row in s.tracked then s else Schema(s.executed + [m], s.tracked + [row])
      ensures !ok ==> !accepts(shards[done]) && shards[done] in db && !HasRun(db[shards[done]], m, hash)
    {
      done := 0;
      while done < |shards|
        invariant done <= |shards| && Ready()
        invariant db == MigrateAll(old(db), shards[..done], m, hash)
      {
        var i := shards[done];
        assert i in shards;
        assert shards[..done + 1][..done] == shards[..done];
        if !HasRun(db[i], m, hash) {
          if !accepts(i) {
            MigrateAllAt(old(db), shards[..done], m, hash);
            return false, done;
          }
          var s := db[i];
          db := db[i := Schema(s.executed + [m], s.tracked + [Row(m, hash)])];
        } else {
          assert db[i := db[i]] == db;
        }
        done := done + 1;
      }
      MigrateAllAt(old(db), shards[..done], m, hash);
      return true, done;
    }

    method Finish()
      modifies this`committed
      ensures committed == db
    {
      committed := db;
    }
  }

  /**
   A service starts: in one transaction it sets up its shards and runs its list.  A refusal
   drops the transaction, and the database is as it was; otherwise all of it is there.
   */
  method Start(hash: Hash, shards: seq<ShardId>, list: seq<Migration>, database: Shards,
               accepts: (Migration, ShardId) -> bool)
    returns (ok: bool, after: Shards)
    ensures ok ==> after == MigrateList(Setup(database, shards), shards, list, hash)
    ensures ok ==> forall i :: i in after <==> i in database || i in shards
    ensures ok ==> forall i | i in database && i !in shards :: after[i] == database[i]
    ensures ok ==> forall i | i in shards ::
              after[i] == RunList(if i in database then database[i] else FRESH, list, hash)
    ensures !ok ==> after == database && exists m, i: ShardId :: m in list && i in shards && !accepts(m, i)
  {
    var migrator := new Migrator(hash, shards, database);
    migrator.SetUp();
    for n := 0 to |list|
      invariant migrator.Ready() && migrator.committed == database
      invariant migrator.db == MigrateList(Setup(database, shards), shards, list[..n], hash)
    {
      assert list[..n + 1][..n] == list[..n];
      var done, count := migrator.Migrate(list[n], (i: ShardId) => accepts(list[n], i));
      if !done {
        assert list[n] in list && shards[count] in shards;
        return false, migrator.committed;
      }
      assert shards[..count] == shards;
    }
    assert list[..|list|] == list;
    MigrateListAt(Setup(database, shards), shards, list, hash);
    migrator.Finish();
    return true, migrator.committed;
  }

  // ----- convergence

  function Rows(ms: seq<Migration>, hash: Hash): (r: seq<(string, string)>)
    ensures |r| == |ms| && forall i | 0 <= i < |ms| :: r[i] == Row(ms[i], hash)
  {
    seq(|ms|, i requires 0 <= i < |ms| => Row(ms[i], hash))
  }

  /** The list without the migrations that are tracked like an earlier one. */
  function Dedup(ms: seq<Migration>, hash: Hash): seq<Migration> {
    if ms == [] then []
    else
      var front, m := Dedup(ms[..|ms| - 1], hash), ms[|ms| - 1];
      if Row(m, hash) in Rows(front, hash) then front else front + [m]
  }

  lemma RowsAppend(ms: seq<Migration>, m: Migration, hash: Hash)
    ensures Rows(ms + [m], hash) == Rows(ms, hash) + [Row(m, hash)]
  {
  }

  lemma RowsLast(ms: seq<Migration>, hash: Hash)
    requires ms != []
    ensures Rows(ms, hash) == Rows(ms[..|ms| - 1], hash) + [Row(ms[|ms| - 1], hash)]
  {
  }

  /** Leaving out repetitions loses no row, and leaves each row once. */
  lemma {:induction false} DedupRows(ms: seq<Migration>, hash: Hash)
    ensures Distinct(Rows(Dedup(ms, hash), hash))
    ensures forall r :: r in Rows(Dedup(ms, hash), hash) <==> r in Rows(ms, hash)
    ensures forall m | m in Dedup(ms, hash) :: m in ms
  {
    if ms != [] {
      var front, m := ms[..|ms| - 1], ms[|ms| - 1];
      DedupRows(front, hash);
      RowsLast(ms, hash);
      RowsAppend(Dedup(front, hash), m, hash);
      assert ms == front + [m];
    }
  }

  /** A new shard executes a list without its repetitions, in order, and tracks just that. */
  lemma {:induction false} FreshShard(ms: seq<Migration>, hash: Hash)
    ensures RunList(FRESH, ms, hash) == Schema(Dedup(ms, hash), Rows(Dedup(ms, hash), hash))
  {
    if ms != [] {
      FreshShard(ms[..|ms| - 1], hash);
      RowsAppend(Dedup(ms[..|ms| - 1], hash), ms[|ms| - 1], hash);
    }
  }

  /** No two different migrations of the list have the same prefix and statements of the same hash. */
  ghost predicate Told(ms: seq<Migration>, hash: Hash) {
    forall m, n | m in ms && n in ms && m.prefix == n.prefix && hash(m.sql) == hash(n.sql) :: m == n
  }

  /**
   A new shard executes everything in a list exactly when no two different migrations of it
   have the same prefix and statements of the same hash.
   */
  lemma AllExecutedIff(ms: seq<Migration>, hash: Hash)
    ensures (forall m | m in ms :: m in RunList(FRESH, ms, hash).executed) <==>
            forall m, n | m in ms && n in ms && m.prefix == n.prefix && hash(m.sql) == hash(n.sql) :: m == n
  {
    FreshShard(ms, hash);
    DedupRows(ms, hash);
    var d := Dedup(ms, hash);
    if forall m | m in ms :: m in d {
      forall m, n | m in ms && n in ms && m.prefix == n.prefix && hash(m.sql) == hash(n.sql)
        ensures m == n
      {
        RowOnce(d, m, n, hash);
      }
    }
    if Told(ms, hash) {
      forall m | m in ms
        ensures m in d
      {
        RowOf(ms, m, hash);
        var n := Tracked(d, Row(m, hash), hash);
      }
    }
  }

  /**
   A shard that ran a list skips a migration exactly when one in the list had the same prefix and
   a statement of the same hash; otherwise it executes it, after all others.
   */
  lemma SkipsIff(ms: seq<Migration>, m: Migration, hash: Hash)
    ensures
      var before, after := RunList(FRESH, ms, hash).executed, RunList(FRESH, ms + [m], hash).executed;
      var known := exists n | n in ms :: n.prefix == m.prefix && hash(n.sql) == hash(m.sql);
      (known ==> after == before) && (!known ==> after == before + [m])
  {
    FreshShard(ms, hash);
    DedupRows(ms, hash);
    assert (ms + [m])[..|ms|] == ms;
    if Row(m, hash) in Rows(ms, hash) {
      var n := Tracked(ms, Row(m, hash), hash);
    }
    forall n | n in ms && n.prefix == m.prefix && hash(n.sql) == hash(m.sql)
      ensures Row(m, hash) in Rows(ms, hash)
    {
      RowOf(ms, n, hash);
    }
  }

  lemma RowOf(ms: seq<Migration>, m: Migration, hash: Hash)
    requires m in ms
    ensures Row(m, hash) in Rows(ms, hash)
  {
    var i :| 0 <= i < |ms| && ms[i] == m;
    assert Rows(ms, hash)[i] == Row(m, hash);
  }

  lemma Tracked(ms: seq<Migration>, r: (string, string), hash: Hash) returns (m: Migration)
    requires r in Rows(ms, hash)
    ensures m in ms && Row(m, hash) == r
  {
    var i :| 0 <= i < |ms| && Rows(ms, hash)[i] == r;
    m := ms[i];
  }

  lemma RowOnce(ms: seq<Migration>, m: Migration, n: Migration, hash: Hash)
    requires Distinct(Rows(ms, hash)) && m in ms && n in ms && Row(m, hash) == Row(n, hash)
    ensures m == n
  {
    var i :| 0 <= i < |ms| && ms[i] == m;
    var j :| 0 <= j < |ms| && ms[j] == n;
    assert Rows(ms, hash)[i] == Rows(ms, hash)[j];
  }

  lemma {:induction false} RunTwice(s: Schema, ms: seq<Migration>, more: seq<Migration>, hash: Hash)
    ensures RunList(RunList(s, ms, hash), more, hash) == RunList(s, ms + more, hash)
  {
    if more == [] {
      assert ms + more == ms;
    } else {
      var all := ms + more;
      assert all[..|all| - 1] == ms + more[..|more| - 1];
      RunTwice(s, ms, more[..|more| - 1], hash);
    }
  }

  /** All lists run in a shard so far, one after the other. */
  function History(runs: seq<seq<Migration>>): seq<Migration> {
    if runs == [] then [] else History(runs[..|runs| - 1]) + runs[|runs| - 1]
  }

  function RunLists(s: Schema, runs: seq<seq<Migration>>, hash: Hash): Schema {
    if runs == [] then s else RunList(RunLists(s, runs[..|runs| - 1], hash), runs[|runs| - 1], hash)
  }

  lemma {:induction false} RunListsIsHistory(s: Schema, runs: seq<seq<Migration>>, hash: Hash)
    ensures RunLists(s, runs, hash) == RunList(s, History(runs), hash)
  {
    if runs != [] {
      RunListsIsHistory(s, runs[..|runs| - 1], hash);
      RunTwice(s, History(runs[..|runs| - 1]), runs[|runs| - 1], hash);
    }
  }

  /** What `ms` executes comes first in what `ms` and `more` execute. */
  lemma {:induction false} DedupGrows(ms: seq<Migration>, more: seq<Migration>, hash: Hash)
    ensures Dedup(ms, hash) <= Dedup(ms + more, hash)
  {
    if more == [] {
      assert ms + more == ms;
    } else {
      var all := ms + more;
      assert all[..|all| - 1] == ms + more[..|more| - 1];
      DedupGrows(ms, more[..|more| - 1], hash);
    }
  }

  /** A list absorbs an earlier one that executes a beginning of it. */
  lemma {:induction false} DedupAbsorbs(ms: seq<Migration>, more: seq<Migration>, hash: Hash)
    requires Dedup(ms, hash) <= Dedup(more, hash)
    ensures Dedup(ms + more, hash) == Dedup(more, hash)
  {
    if |Dedup(ms, hash)| == |Dedup(more, hash)| {
      DedupRows(ms, hash);
      DedupRows(more, hash);
      AllKnown(ms, more, hash);
    } else {
      var all, front := ms + more, more[..|more| - 1];
      assert all[..|all| - 1] == ms + front;
      DedupAbsorbs(ms, front, hash);
    }
  }

  lemma {:induction false} AllKnown(ms: seq<Migration>, more: seq<Migration>, hash: Hash)
    requires forall r | r in Rows(more, hash) :: r in Rows(ms, hash)
    ensures Dedup(ms + more, hash) == Dedup(ms, hash)
  {
    if more == [] {
      assert ms + more == ms;
    } else {
      var all := ms + more;
      assert all[..|all| - 1] == ms + more[..|more| - 1];
      RowsLast(more, hash);
      AllKnown(ms, more[..|more| - 1], hash);
      DedupRows(ms, hash);
    }
  }

  /**
   A shard that went through earlier runs and then `ms` ends like a shard created for `ms`
   exactly when what the earlier runs had executed is a beginning of what `ms` executes.
   */
  lemma LateShardMatchesIff(runs: seq<seq<Migration>>, ms: seq<Migration>, hash: Hash)
    ensures RunList(RunLists(FRESH, runs, hash), ms, hash) == RunList(FRESH, ms, hash)
            <==> Dedup(History(runs), hash) <= Dedup(ms, hash)
  {
    RunListsIsHistory(FRESH, runs, hash);
    RunTwice(FRESH, History(runs), ms, hash);
    FreshShard(History(runs) + ms, hash);
    FreshShard(ms, hash);
    DedupGrows(History(runs), ms, hash);
    if Dedup(History(runs), hash) <= Dedup(ms, hash) {
      DedupAbsorbs(History(runs), ms, hash);
    }
  }

  /** Each list of the history continues the one before it. */
  ghost predicate AppendOnly(runs: seq<seq<Migration>>) {
    forall i | 0 < i < |runs| :: runs[i - 1] <= runs[i]
  }

  lemma DedupPrefix(ms: seq<Migration>, more: seq<Migration>, hash: Hash)
    requires ms <= more
    ensures Dedup(ms, hash) <= Dedup(more, hash)
  {
    assert more == ms + more[|ms|..];
    DedupGrows(ms, more[|ms|..], hash);
  }

  lemma {:induction false} AppendOnlyHistory(runs: seq<seq<Migration>>, hash: Hash)
    requires AppendOnly(runs) && runs != []
    ensures Dedup(History(runs), hash) == Dedup(runs[|runs| - 1], hash)
  {
    var front, last := runs[..|runs| - 1], runs[|runs| - 1];
    if front == [] {
      assert History(runs) == last;
    } else {
      AppendOnlyHistory(front, hash);
      DedupPrefix(front[|front| - 1], last, hash);
      DedupAbsorbs(History(front), last, hash);
    }
  }

  lemma LikeFresh(runs: seq<seq<Migration>>, hash: Hash)
    requires AppendOnly(runs) && runs != []
    ensures RunLists(FRESH, runs, hash) == RunList(FRESH, runs[|runs| - 1], hash)
  {
    RunListsIsHistory(FRESH, runs, hash);
    AppendOnlyHistory(runs, hash);
    FreshShard(History(runs), hash);
    FreshShard(runs[|runs| - 1], hash);
  }

  /**
   Over any history of lists that only grow, every shard holds the last list without
   repetitions, in order, whenever it joined; running the last list again changes nothing.
   */
  lemma MigrationsConverge(runs: seq<seq<Migration>>, joined: nat, hash: Hash)
    requires AppendOnly(runs) && joined < |runs|
    ensures
      var last := runs[|runs| - 1];
      var s := RunLists(FRESH, runs[joined..], hash);
      s == Schema(Dedup(last, hash), Rows(Dedup(last, hash), hash)) && RunList(s, last, hash) == s
  {
    var last := runs[|runs| - 1];
    LikeFresh(runs[joined..], hash);
    FreshShard(last, hash);
    LateShardMatchesIff(runs[joined..], last, hash);
    AppendOnlyHistory(runs[joined..], hash);
  }

  lemma {:induction false} DedupDistinct(ms: seq<Migration>, hash: Hash)
    requires Distinct(ms) && Told(ms, hash)
    ensures Dedup(ms, hash) == ms
  {
    if ms != [] {
      var front, m := ms[..|ms| - 1], ms[|ms| - 1];
      DedupDistinct(front, hash);
      if Row(m, hash) in Rows(front, hash) {
        var n := Tracked(front, Row(m, hash), hash);
      }
    }
  }

  /**
   When no list repeats a migration, a shard that ran `was` ends like a new one exactly when
   `ms` only appends to `was`.
   */
  lemma EditedListIff(was: seq<Migration>, ms: seq<Migration>, hash: Hash)
    requires Distinct(was) && Distinct(ms) && Told(was, hash) && Told(ms, hash)
    ensures RunList(RunList(FRESH, was, hash), ms, hash) == RunList(FRESH, ms, hash) <==> was <= ms
  {
    LateShardMatchesIff([was], ms, hash);
    assert [was][..0] == [];
    assert History([was]) == was;
    DedupDistinct(was, hash);
    DedupDistinct(ms, hash);
  }

  /** Inserting into the middle of a list makes old and new shards differ. */
  lemma InsertionDiffers(pre: seq<Migration>, m: Migration, n: Migration, hash: Hash)
    requires Distinct(pre + [n, m]) && Told(pre + [n, m], hash)
    ensures RunList(RunList(FRESH, pre + [m], hash), pre + [n, m], hash) != RunList(FRESH, pre + [n, m], hash)
  {
    var was, ms := pre + [m], pre + [n, m];
    assert ms[|pre|] == n && ms[|pre| + 1] == m && was[|pre|] == m;
    assert forall i | 0 <= i < |pre| :: was[i] == ms[i];
    EditedListIff(was, ms, hash);
  }

  // ----- the whole database over its releases

  /** A start of the service: the shards it is configured with and its migrations. */
  datatype Release = Release(shards: seq<ShardId>, list: seq<Migration>)

  function Releases(rs: seq<Release>, hash: Hash): Shards {
    if rs == [] then map[]
    else
      var r := rs[|rs| - 1];
      MigrateList(Setup(Releases(rs[..|rs| - 1], hash), r.shards), r.shards, r.list, hash)
  }

  ghost predicate Growing(rs: seq<Release>) {
    forall i, j | 0 <= i <= j < |rs| :: rs[i].list <= rs[j].list
  }

  lemma ListContinues(ms: seq<Migration>, more: seq<Migration>, hash: Hash)
    requires ms <= more
    ensures RunList(RunList(FRESH, ms, hash), more, hash) == RunList(FRESH, more, hash)
  {
    assert AppendOnly([ms, more]);
    LikeFresh([ms, more], hash);
    assert [ms, more][..1] == [ms] && [ms][..0] == [];
    assert RunLists(FRESH, [ms], hash) == RunList(FRESH, ms, hash);
  }

  /** The release that last touched shard `i`. */
  ghost function LastRelease(rs: seq<Release>, i: ShardId): (r: Option<nat>)
    ensures r.Some? ==> r.value < |rs|
  {
    if rs == [] then None
    else if i in rs[|rs| - 1].shards then Some(|rs| - 1)
    else LastRelease(rs[..|rs| - 1], i)
  }

  /**
   While the list of migrations only grows, every shard is at each time like one created for
   the release that last touched it, whichever shards come, go and return.
   */
  lemma {:induction false} ShardsConverge(rs: seq<Release>, i: ShardId, hash: Hash)
    requires Growing(rs)
    ensures i in Releases(rs, hash) <==> LastRelease(rs, i).Some?
    ensures LastRelease(rs, i).Some? ==>
              Releases(rs, hash)[i] == RunList(FRESH, rs[LastRelease(rs, i).value].list, hash)
  {
    if rs != [] {
      var front, r := rs[..|rs| - 1], rs[|rs| - 1];
      ShardsConverge(front, i, hash);
      var db := Setup(Releases(front, hash), r.shards);
      MigrateListAt(db, r.shards, r.list, hash);
      var was := LastRelease(front, i);
      if was.Some? {
        ListContinues(rs[was.value].list, r.list, hash);
      }
    }
  }
}
