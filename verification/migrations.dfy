/** The migration runner `migrate`: the `.sql` files of the migrations
    directory, in sorted order, minus the names already in the `migrations`
    table, are each run in a transaction that also records the name; a file
    that fails is rolled back, left unrecorded, and the runner goes on. The
    directory listing and the outcome of each file's SQL are inputs. */
module Migrations {
  import opened Text
  import opened Tables
  import opened Sorting

  /** `file.endsWith('.sql')`. This agrees with `path.extname` being `.sql`,
      except for the bare name `.sql`, which has no extension. */
  function IsMigrationFile(name: string): (r: bool)
    ensures r && name != ".sql" ==> ExtName(name) == ".sql"
  {
    SqlSuffixIsExtension(name);
    EndsWith(name, ".sql")
  }

  lemma SqlSuffixIsExtension(name: string)
    ensures EndsWith(name, ".sql") && name != ".sql" ==> ExtName(name) == ".sql"
  {
    if EndsWith(name, ".sql") && name != ".sql" {
      var stem := name[..|name| - 4];
      assert name == stem + ".sql";
      LastDotOfSuffixed(stem, ".sql");
    }
  }

  /** The default `sort()` of strings orders any list of names. */
  lemma LexLeOrders()
    ensures TotalPreorder(LexLe)
  {
    forall a, b ensures LexLe(a, b) || LexLe(b, a) {
      LexLeTotal(a, b);
    }
    forall a, b, c | LexLe(a, b) && LexLe(b, c) ensures LexLe(a, c) {
      LexLeTransitive(a, b, c);
    }
  }

  /** The candidates in the order they are attempted. */
  function MigrationOrder(files: seq<string>): (r: seq<string>)
    ensures SortedBy(r, LexLe)
    ensures forall f :: f in r <==> f in files && IsMigrationFile(f)
    ensures multiset(r) == multiset(Where(files, IsMigrationFile))
  {
    LexLeOrders();
    var candidates := Where(files, IsMigrationFile);
    var r := Sort(candidates, LexLe);
    assert forall f :: f in r <==> f in candidates by {
      forall f ensures f in r <==> f in candidates {
        SortSameElements(candidates, LexLe, f);
      }
    }
    r
  }

  /** `!executedMigrationNames.includes(file)`. */
  function NotRecorded(executed: set<string>): string -> bool {
    f => f !in executed
  }

  /** What a run did, given the recorded names it read at the start, the
      directory listing and which files' SQL succeeds: the pending files of
      the sorted listing were attempted, each once per listing entry and in
      that order; exactly the ones that succeeded were committed, in that
      order; and the table now holds the old names plus the committed ones. */
  ghost predicate RunOutcome(executed: set<string>, files: seq<string>, succeeds: string -> bool,
                             attempted: seq<string>, committed: seq<string>, recorded: set<string>) {
    && (forall f :: f in attempted <==> f in files && IsMigrationFile(f) && f !in executed)
    && SortedBy(attempted, LexLe)
    && (forall f :: f in committed <==> f in attempted && succeeds(f))
    && SortedBy(committed, LexLe)
    && recorded == executed + (set f | f in committed)
    && attempted == Where(MigrationOrder(files), NotRecorded(executed))
    && committed == Where(attempted, succeeds)
  }

  /** The state after the first `i` files of `order`: the pending ones among
      them were attempted, in order, and the successful ones committed. */
  ghost predicate RanPrefix(executed: set<string>, order: seq<string>, i: nat, succeeds: string -> bool,
                            attempted: seq<string>, committed: seq<string>, recorded: set<string>) {
    && PrefixState(executed, order, i, succeeds, attempted, committed, recorded)
    && PrefixQueue(executed, order, i, succeeds, attempted, committed)
  }

  /** The two sequences of `RanPrefix`, as filters of the first `i` files. */
  ghost predicate PrefixQueue(executed: set<string>, order: seq<string>, i: nat, succeeds: string -> bool,
                              attempted: seq<string>, committed: seq<string>) {
    && i <= |order|
    && attempted == Where(order[..i], NotRecorded(executed))
    && committed == Where(attempted, succeeds)
  }

  /** The contents, order and recorded names of `RanPrefix`. */
  ghost predicate PrefixState(executed: set<string>, order: seq<string>, i: nat, succeeds: string -> bool,
                              attempted: seq<string>, committed: seq<string>, recorded: set<string>) {
    && i <= |order|
    && (forall f :: f in attempted <==> f in order[..i] && f !in executed)
    && SortedBy(attempted, LexLe)
    && (forall f :: f in committed <==> f in attempted && succeeds(f))
    && SortedBy(committed, LexLe)
    && recorded == executed + (set f | f in committed)
  }

  /** The loop body for `order[i]` keeps the state. */
  lemma RunStep(executed: set<string>, order: seq<string>, i: nat, succeeds: string -> bool,
                attempted: seq<string>, committed: seq<string>, recorded: set<string>)
    requires SortedBy(order, LexLe) && i < |order|
    requires RanPrefix(executed, order, i, succeeds, attempted, committed, recorded)
    ensures var file := order[i];
            if file in executed then RanPrefix(executed, order, i + 1, succeeds, attempted, committed, recorded)
            else if succeeds(file) then
              RanPrefix(executed, order, i + 1, succeeds, attempted + [file], committed + [file], recorded + {file})
            else RanPrefix(executed, order, i + 1, succeeds, attempted + [file], committed, recorded)
  {
    QueueStep(executed, order, i, succeeds, attempted, committed);
    StateStep(executed, order, i, succeeds, attempted, committed, recorded);
  }

  /** The two filters grow by the file exactly when it passes them. */
  lemma QueueStep(executed: set<string>, order: seq<string>, i: nat, succeeds: string -> bool,
                  attempted: seq<string>, committed: seq<string>)
    requires i < |order|
    requires PrefixQueue(executed, order, i, succeeds, attempted, committed)
    ensures var file := order[i];
            if file in executed then PrefixQueue(executed, order, i + 1, succeeds, attempted, committed)
            else if succeeds(file) then
              PrefixQueue(executed, order, i + 1, succeeds, attempted + [file], committed + [file])
            else PrefixQueue(executed, order, i + 1, succeeds, attempted + [file], committed)
  {
    var file := order[i];
    assert order[..i + 1] == order[..i] + [file];
    WhereSnoc(order[..i], file, NotRecorded(executed));
    WhereSnoc(attempted, file, succeeds);
  }

  /** Contents, order and recorded names after `order[i]`. */
  lemma StateStep(executed: set<string>, order: seq<string>, i: nat, succeeds: string -> bool,
                  attempted: seq<string>, committed: seq<string>, recorded: set<string>)
    requires SortedBy(order, LexLe) && i < |order|
    requires PrefixState(executed, order, i, succeeds, attempted, committed, recorded)
    ensures var file := order[i];
            if file in executed then PrefixState(executed, order, i + 1, succeeds, attempted, committed, recorded)
            else if succeeds(file) then
              PrefixState(executed, order, i + 1, succeeds, attempted + [file], committed + [file], recorded + {file})
            else PrefixState(executed, order, i + 1, succeeds, attempted + [file], committed, recorded)
  {
    var file := order[i];
    assert order[..i + 1] == order[..i] + [file];
    if file !in executed {
      // Everything attempted so far comes earlier in the sorted order.
      forall x | x in attempted ensures LexLe(x, file) {
        var j :| 0 <= j < i && order[..i][j] == x;
        assert order[j] == x;
      }
      assert (set f | f in committed + [file]) == (set f | f in committed) + {file};
    }
  }

  /** `migrate`. `succeeds(file)` says whether the file's SQL, and the insert
      of its name, go through. */
  method Migrate(executed: set<string>, files: seq<string>, succeeds: string -> bool)
    returns (attempted: seq<string>, committed: seq<string>, recorded: set<string>)
    ensures RunOutcome(executed, files, succeeds, attempted, committed, recorded)
  {
    var order := MigrationOrder(files);
    attempted, committed, recorded := [], [], executed;
    RunStarted(executed, order, succeeds);
    for i := 0 to |order|
      invariant RanPrefix(executed, order, i, succeeds, attempted, committed, recorded)
    {
      var file := order[i];
      RunStep(executed, order, i, succeeds, attempted, committed, recorded);
      if file !in executed {
        attempted := attempted + [file];
        if succeeds(file) {
          // BEGIN; the file's SQL; INSERT INTO migrations (name); COMMIT
          committed := committed + [file];
          recorded := recorded + {file};
        }
        // otherwise ROLLBACK: nothing is recorded
      }
    }
    RunFinished(executed, files, succeeds, attempted, committed, recorded);
  }

  /** Before the first file, nothing has been attempted or recorded. */
  lemma RunStarted(executed: set<string>, order: seq<string>, succeeds: string -> bool)
    ensures RanPrefix(executed, order, 0, succeeds, [], [], executed)
  {
  }

  /** Once the whole sorted listing has been walked, the run's outcome holds. */
  lemma RunFinished(executed: set<string>, files: seq<string>, succeeds: string -> bool,
                    attempted: seq<string>, committed: seq<string>, recorded: set<string>)
    requires RanPrefix(executed, MigrationOrder(files), |MigrationOrder(files)|, succeeds, attempted, committed, recorded)
    ensures RunOutcome(executed, files, succeeds, attempted, committed, recorded)
  {
    var order := MigrationOrder(files);
    assert order[..|order|] == order;
  }

  /** A listing without repeated names (as a directory's is) gets each
      pending file attempted once. */
  lemma AttemptedOnce(executed: set<string>, files: seq<string>, succeeds: string -> bool,
                      attempted: seq<string>, committed: seq<string>, recorded: set<string>)
    requires RunOutcome(executed, files, succeeds, attempted, committed, recorded)
    requires NoDuplicates(files)
    ensures NoDuplicates(attempted) && NoDuplicates(committed)
  {
    NoDuplicatesPermutation(Where(files, IsMigrationFile), MigrationOrder(files));
  }

  /** A second run attempts exactly the files the first one had to roll back;
      after a run with no failure, the next run executes nothing. */
  lemma SecondRunRetriesFailures(executed: set<string>, files: seq<string>, succeeds: string -> bool,
                                 attempted: seq<string>, committed: seq<string>, recorded: set<string>,
                                 succeeds2: string -> bool,
                                 attempted2: seq<string>, committed2: seq<string>, recorded2: set<string>)
    requires RunOutcome(executed, files, succeeds, attempted, committed, recorded)
    requires RunOutcome(recorded, files, succeeds2, attempted2, committed2, recorded2)
    ensures forall f :: f in attempted2 <==> f in attempted && !succeeds(f)
    ensures (forall f :: f in attempted ==> succeeds(f)) ==> attempted2 == []
  {
    if forall f :: f in attempted ==> succeeds(f) {
      WhereNone(MigrationOrder(files), NotRecorded(recorded));
    }
  }

  /** Names already recorded are never run again, and a name is recorded only
      if its file is a migration that succeeded or it was recorded before. */
  lemma RecordedOnlyOnSuccess(executed: set<string>, files: seq<string>, succeeds: string -> bool,
                              attempted: seq<string>, committed: seq<string>, recorded: set<string>)
    requires RunOutcome(executed, files, succeeds, attempted, committed, recorded)
    ensures forall f :: f in executed ==> f !in attempted
    ensures forall f :: f in recorded <==> f in executed || (f in files && IsMigrationFile(f) && succeeds(f))
  {
  }
}
