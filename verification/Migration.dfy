/** Replaying migrations and comparing schemas (orm_migration_sync_checker.py). */
module Migration {
  import opened Basics

  /** `ColumnInfo`, less its name, which is the key it is filed under. */
  datatype Column = Column(typ: string, nullable: bool, primaryKey: bool, serverDefault: Option<string>)

  type Columns = map<string, Column>

  /** `TableSchema` by table name. */
  type Schema = map<string, Columns>

  datatype Op =
    | CreateTable(table: string, columns: Columns)
    | AddColumn(table: string, columns: Columns)
    | DropColumn(table: string, column: string)
    | AlterColumn(table: string, column: string, newType: Option<string>, newNullable: Option<bool>)

  /** The columns of a table, none if it is absent: `schemas.get(table, TableSchema()).columns`. */
  function ColumnsOf(schema: Schema, table: string): Columns {
    if table in schema then schema[table] else map[]
  }

  function Altered(c: Column, newType: Option<string>, newNullable: Option<bool>): Column {
    var typed := if newType.Some? then c.(typ := newType.value) else c;
    if newNullable.Some? then typed.(nullable := newNullable.value) else typed
  }

  function Apply(schema: Schema, op: Op): Schema {
    match op
    case CreateTable(t, columns) => schema[t := ColumnsOf(schema, t) + columns]
    case AddColumn(t, columns) => schema[t := ColumnsOf(schema, t) + columns]
    case DropColumn(t, c) =>
      if t in schema && c in schema[t] then schema[t := schema[t] - {c}] else schema
    case AlterColumn(t, c, newType, newNullable) =>
      if t in schema && c in schema[t] then
        schema[t := schema[t][c := Altered(schema[t][c], newType, newNullable)]]
      else
        schema
  }

  function Replay(ops: seq<Op>): Schema {
    if ops == [] then map[] else Apply(Replay(ops[..|ops| - 1]), ops[|ops| - 1])
  }

  function Flatten(files: seq<seq<Op>>): seq<Op> {
    if files == [] then [] else Flatten(files[..|files| - 1]) + files[|files| - 1]
  }

  /** The operations are those of the files in file order, and within a file in its order. */
  lemma {:induction false} FlattenAt(files: seq<seq<Op>>, f: nat, i: nat)
    requires f < |files| && i < |files[f]|
    ensures |Flatten(files[..f])| + i < |Flatten(files)|
    ensures Flatten(files)[|Flatten(files[..f])| + i] == files[f][i]
    decreases |files|
  {
    var n := |files| - 1;
    if f < n {
      assert files[..n][..f] == files[..f];
      FlattenAt(files[..n], f, i);
    } else {
      assert files[..f] == files[..n];
    }
  }

  function Sizes(files: seq<seq<Op>>): nat {
    if files == [] then 0 else Sizes(files[..|files| - 1]) + |files[|files| - 1]|
  }

  /** And no others. */
  lemma {:induction false} FlattenKeepsAll(files: seq<seq<Op>>)
    ensures |Flatten(files)| == Sizes(files)
    decreases |files|
  {
    if files != [] {
      FlattenKeepsAll(files[..|files| - 1]);
    }
  }

  /** `for col_name, col_info in columns.items(): existing[col_name] = col_info` */
  method MergeColumns(existing: Columns, columns: Columns) returns (merged: Columns)
    ensures merged == existing + columns
  {
    merged := existing;
    var left := columns.Keys;
    while left != {}
      invariant left <= columns.Keys
      invariant merged == existing + map c | c in columns && c !in left :: columns[c]
      decreases left
    {
      var name :| name in left;
      merged := merged[name := columns[name]];
      left := left - {name};
    }
    assert (map c | c in columns && c !in left :: columns[c]) == columns;
  }

  /** `build_target_schema` on the operations of the migration files in sorted order. */
  method BuildTargetSchema(files: seq<seq<Op>>) returns (schema: Schema)
    ensures schema == Replay(Flatten(files))
  {
    schema := map[];
    for f := 0 to |files|
      invariant schema == Replay(Flatten(files[..f]))
    {
      schema := ApplyAll(schema, files[f], Flatten(files[..f]));
      assert files[..f + 1][..f] == files[..f];
    }
    assert files[..|files|] == files;
  }

  /** The loop over the operations of one file; `done` are those of the files before. */
  method ApplyAll(schema: Schema, ops: seq<Op>, ghost done: seq<Op>) returns (r: Schema)
    requires schema == Replay(done)
    ensures r == Replay(done + ops)
  {
    r := schema;
    assert done + ops[..0] == done;
    for i := 0 to |ops|
      invariant r == Replay(done + ops[..i])
    {
      ReplayOneMore(done, ops, i);
      r := ApplyOp(r, ops[i]);
    }
    assert ops[..|ops|] == ops;
  }

  lemma ReplayOneMore(done: seq<Op>, ops: seq<Op>, i: nat)
    requires i < |ops|
    ensures Replay(done + ops[..i + 1]) == Apply(Replay(done + ops[..i]), ops[i])
  {
    var all := done + ops[..i + 1];
    assert all[..|all| - 1] == done + ops[..i] && all[|all| - 1] == ops[i];
  }

  /** The body of the loop over operations. */
  method ApplyOp(schema: Schema, op: Op) returns (r: Schema)
    ensures r == Apply(schema, op)
  {
    r := schema;
    match op
    case CreateTable(t, columns) =>
      if t !in r {
        r := r[t := columns];
        assert map[] + columns == columns;
      } else {
        var merged := MergeColumns(r[t], columns);
        r := r[t := merged];
      }
    case AddColumn(t, columns) =>
      if t !in r {
        r := r[t := map[]];
      }
      var merged := MergeColumns(r[t], columns);
      r := r[t := merged];
    case DropColumn(t, c) =>
      if t in r && c in r[t] {
        r := r[t := r[t] - {c}];
      }
    case AlterColumn(t, c, newType, newNullable) =>
      if t in r && c in r[t] {
        var column := r[t][c];
        if newType.Some? {
          column := column.(typ := newType.value);
        }
        if newNullable.Some? {
          column := column.(nullable := newNullable.value);
        }
        r := r[t := r[t][c := column]];
      }
  }

  // ----- Last writer wins

  /** `op` creates or adds column `c` of table `t`. */
  predicate Defines(op: Op, t: string, c: string) {
    (op.CreateTable? || op.AddColumn?) && op.table == t && c in op.columns
  }

  predicate Drops(op: Op, t: string, c: string) {
    op.DropColumn? && op.table == t && op.column == c
  }

  predicate Retypes(op: Op, t: string, c: string) {
    op.AlterColumn? && op.table == t && op.column == c && op.newType.Some?
  }

  predicate Renulls(op: Op, t: string, c: string) {
    op.AlterColumn? && op.table == t && op.column == c && op.newNullable.Some?
  }

  /** Of all operations that create, add or drop the column, `i` is the last, and no drop. */
  ghost predicate LastDefinition(ops: seq<Op>, t: string, c: string, i: nat) {
    && i < |ops| && Defines(ops[i], t, c)
    && forall j :: i < j < |ops| ==> !Defines(ops[j], t, c) && !Drops(ops[j], t, c)
  }

  /** The type after definition `i`: that of the last later alteration giving one, or its own. */
  ghost predicate TypeAfter(ops: seq<Op>, t: string, c: string, i: nat, typ: string)
    requires i < |ops| && Defines(ops[i], t, c)
  {
    || ((forall j :: i < j < |ops| ==> !Retypes(ops[j], t, c)) && typ == ops[i].columns[c].typ)
    || (exists k :: i < k < |ops| && Retypes(ops[k], t, c) && typ == ops[k].newType.value &&
                    forall j :: k < j < |ops| ==> !Retypes(ops[j], t, c))
  }

  ghost predicate NullableAfter(ops: seq<Op>, t: string, c: string, i: nat, nullable: bool)
    requires i < |ops| && Defines(ops[i], t, c)
  {
    || ((forall j :: i < j < |ops| ==> !Renulls(ops[j], t, c)) && nullable == ops[i].columns[c].nullable)
    || (exists k :: i < k < |ops| && Renulls(ops[k], t, c) && nullable == ops[k].newNullable.value &&
                    forall j :: k < j < |ops| ==> !Renulls(ops[j], t, c))
  }

  ghost predicate ColumnAfter(ops: seq<Op>, t: string, c: string, i: nat, column: Column)
    requires i < |ops| && Defines(ops[i], t, c)
  {
    && TypeAfter(ops, t, c, i, column.typ)
    && NullableAfter(ops, t, c, i, column.nullable)
    && column.primaryKey == ops[i].columns[c].primaryKey
    && column.serverDefault == ops[i].columns[c].serverDefault
  }

  /** What one more operation does to one column. */
  lemma OneMoreOp(schema: Schema, op: Op, t: string, c: string)
    ensures var was, now := ColumnsOf(schema, t), ColumnsOf(Apply(schema, op), t);
            if Defines(op, t, c) then c in now && now[c] == op.columns[c]
            else if Drops(op, t, c) then c !in now
            else (c in now <==> c in was) && (c in was ==>
              now[c].typ == (if Retypes(op, t, c) then op.newType.value else was[c].typ) &&
              now[c].nullable == (if Renulls(op, t, c) then op.newNullable.value else was[c].nullable) &&
              now[c].primaryKey == was[c].primaryKey && now[c].serverDefault == was[c].serverDefault)
  {
  }

  lemma DefinitionSurvives(before: seq<Op>, op: Op, t: string, c: string, i: nat)
    requires LastDefinition(before, t, c, i) && !Defines(op, t, c) && !Drops(op, t, c)
    ensures LastDefinition(before + [op], t, c, i)
  {
  }

  lemma ColumnSurvives(before: seq<Op>, op: Op, t: string, c: string, i: nat, was: Column, now: Column)
    requires LastDefinition(before, t, c, i) && ColumnAfter(before, t, c, i, was)
    requires now.typ == if Retypes(op, t, c) then op.newType.value else was.typ
    requires now.nullable == if Renulls(op, t, c) then op.newNullable.value else was.nullable
    requires now.primaryKey == was.primaryKey && now.serverDefault == was.serverDefault
    ensures ColumnAfter(before + [op], t, c, i, now)
  {
    TypeSurvives(before, op, t, c, i, was.typ, now.typ);
    NullableSurvives(before, op, t, c, i, was.nullable, now.nullable);
  }

  lemma TypeSurvives(before: seq<Op>, op: Op, t: string, c: string, i: nat, was: string, now: string)
    requires i < |before| && Defines(before[i], t, c) && TypeAfter(before, t, c, i, was)
    requires now == if Retypes(op, t, c) then op.newType.value else was
    ensures TypeAfter(before + [op], t, c, i, now)
  {
    var ops := before + [op];
    if Retypes(op, t, c) {
      assert Retypes(ops[|before|], t, c);
    } else if k :| i < k < |before| && Retypes(before[k], t, c) && was == before[k].newType.value &&
                   forall j :: k < j < |before| ==> !Retypes(before[j], t, c) {
      assert Retypes(ops[k], t, c);
    }
  }

  lemma NullableSurvives(before: seq<Op>, op: Op, t: string, c: string, i: nat, was: bool, now: bool)
    requires i < |before| && Defines(before[i], t, c) && NullableAfter(before, t, c, i, was)
    requires now == if Renulls(op, t, c) then op.newNullable.value else was
    ensures NullableAfter(before + [op], t, c, i, now)
  {
    var ops := before + [op];
    if Renulls(op, t, c) {
      assert Renulls(ops[|before|], t, c);
    } else if k :| i < k < |before| && Renulls(before[k], t, c) && was == before[k].newNullable.value &&
                   forall j :: k < j < |before| ==> !Renulls(before[j], t, c) {
      assert Renulls(ops[k], t, c);
    }
  }

  /** A column of the replayed schema has a last definition, and every later alteration of it shows. */
  lemma {:induction false} LastWriterWins(ops: seq<Op>, t: string, c: string) returns (i: nat)
    requires c in ColumnsOf(Replay(ops), t)
    ensures LastDefinition(ops, t, c, i)
    ensures ColumnAfter(ops, t, c, i, ColumnsOf(Replay(ops), t)[c])
    decreases |ops|
  {
    var before, op := ops[..|ops| - 1], ops[|ops| - 1];
    assert ops == before + [op];
    OneMoreOp(Replay(before), op, t, c);
    if Defines(op, t, c) {
      i := |before|;
    } else {
      i := LastWriterWins(before, t, c);
      DefinitionSurvives(before, op, t, c, i);
      ColumnSurvives(before, op, t, c, i, ColumnsOf(Replay(before), t)[c], ColumnsOf(Replay(ops), t)[c]);
    }
  }

  lemma {:induction false} DefinedMeansPresent(ops: seq<Op>, t: string, c: string, i: nat)
    requires LastDefinition(ops, t, c, i)
    ensures c in ColumnsOf(Replay(ops), t)
    decreases |ops|
  {
    var before, op := ops[..|ops| - 1], ops[|ops| - 1];
    OneMoreOp(Replay(before), op, t, c);
    if i < |before| {
      DefinedMeansPresent(before, t, c, i);
    }
  }

  /** A column is in the schema exactly when its last create, add or drop is not a drop. */
  lemma PresentIff(ops: seq<Op>, t: string, c: string)
    ensures c in ColumnsOf(Replay(ops), t) <==> exists i: nat :: LastDefinition(ops, t, c, i)
  {
    if c in ColumnsOf(Replay(ops), t) {
      var i := LastWriterWins(ops, t, c);
    }
    if i: nat :| LastDefinition(ops, t, c, i) {
      DefinedMeansPresent(ops, t, c, i);
    }
  }

  /** Tables are never removed: one is in the schema exactly when something created or added to it. */
  lemma {:induction false} TablePresentIff(ops: seq<Op>, t: string)
    ensures t in Replay(ops) <==>
            exists i :: 0 <= i < |ops| && (ops[i].CreateTable? || ops[i].AddColumn?) && ops[i].table == t
    decreases |ops|
  {
    if ops != [] {
      var before := ops[..|ops| - 1];
      TablePresentIff(before, t);
      if i :| 0 <= i < |before| && (before[i].CreateTable? || before[i].AddColumn?) && before[i].table == t {
        assert ops[i] == before[i];
      }
      if i :| 0 <= i < |ops| && (ops[i].CreateTable? || ops[i].AddColumn?) && ops[i].table == t {
        assert i < |before| ==> before[i] == ops[i];
      }
    }
  }

  // ----- Comparing

  datatype TableDiff = TableDiff(table: string, missingInOrm: set<string>, missingInMigration: set<string>,
                                 typeMismatch: set<(string, string, string)>) {
    predicate Clean() {
      missingInOrm == {} && missingInMigration == {} && typeMismatch == {}
    }
  }

  function Mismatches(orm: Columns, mig: Columns): set<(string, string, string)> {
    set c | c in orm.Keys * mig.Keys && orm[c].typ != mig[c].typ :: (c, orm[c].typ, mig[c].typ)
  }

  function DiffOf(orm: Schema, mig: Schema, table: string): TableDiff {
    var o, m := ColumnsOf(orm, table), ColumnsOf(mig, table);
    TableDiff(table, m.Keys - o.Keys, o.Keys - m.Keys, Mismatches(o, m))
  }

  /** What an entry tells: which columns which side lacks, and where the types differ, the ORM's first. */
  ghost predicate Tells(d: TableDiff, orm: Columns, mig: Columns) {
    && (forall c :: c in d.missingInOrm <==> c in mig && c !in orm)
    && (forall c :: c in d.missingInMigration <==> c in orm && c !in mig)
    && (forall c, x, y :: (c, x, y) in d.typeMismatch <==>
          c in orm && c in mig && x == orm[c].typ && y == mig[c].typ && x != y)
  }

  lemma DiffTells(orm: Schema, mig: Schema, table: string)
    ensures Tells(DiffOf(orm, mig, table), ColumnsOf(orm, table), ColumnsOf(mig, table))
  {
  }

  /** The inner loop, over the columns both sides have. */
  method FindMismatches(orm: Columns, mig: Columns) returns (r: set<(string, string, string)>)
    ensures r == Mismatches(orm, mig)
  {
    r := {};
    var left := orm.Keys * mig.Keys;
    while left != {}
      invariant left <= orm.Keys * mig.Keys
      invariant r == set c | c in orm.Keys * mig.Keys - left && orm[c].typ != mig[c].typ :: (c, orm[c].typ, mig[c].typ)
      decreases left
    {
      var c :| c in left;
      if orm[c].typ != mig[c].typ {
        r := r + {(c, orm[c].typ, mig[c].typ)};
      }
      left := left - {c};
    }
  }

  /** `compare_schemas`: one entry for each table with a difference, and no other. */
  method CompareSchemas(orm: Schema, mig: Schema) returns (diffs: seq<TableDiff>)
    ensures forall i, j :: 0 <= i < j < |diffs| ==> diffs[i].table != diffs[j].table
    ensures forall d :: d in diffs <==>
              d.table in orm.Keys + mig.Keys && d == DiffOf(orm, mig, d.table) && !d.Clean()
    ensures forall d :: d in diffs ==> Tells(d, ColumnsOf(orm, d.table), ColumnsOf(mig, d.table))
  {
    diffs := [];
    var left := orm.Keys + mig.Keys;
    while left != {}
      invariant left <= orm.Keys + mig.Keys
      invariant forall i, j :: 0 <= i < j < |diffs| ==> diffs[i].table != diffs[j].table
      invariant forall d :: d in diffs <==>
                  d.table in orm.Keys + mig.Keys - left && d == DiffOf(orm, mig, d.table) && !d.Clean()
      decreases left
    {
      var table :| table in left;
      var o, m := ColumnsOf(orm, table), ColumnsOf(mig, table);
      var mismatch := FindMismatches(o, m);
      var d := TableDiff(table, m.Keys - o.Keys, o.Keys - m.Keys, mismatch);
      left := left - {table};
      if !d.Clean() {
        assert forall e :: e in diffs ==> e.table != table;
        diffs := diffs + [d];
      }
    }
    forall d | d in diffs
      ensures Tells(d, ColumnsOf(orm, d.table), ColumnsOf(mig, d.table))
    {
      DiffTells(orm, mig, d.table);
    }
  }

  /** Swapping the schemas swaps the two missing lists and turns every mismatch round. */
  lemma DiffIsSymmetric(orm: Schema, mig: Schema, table: string)
    ensures var d, e := DiffOf(orm, mig, table), DiffOf(mig, orm, table);
            && e.missingInOrm == d.missingInMigration && e.missingInMigration == d.missingInOrm
            && forall c, x, y :: (c, x, y) in d.typeMismatch <==> (c, y, x) in e.typeMismatch
  {
  }

  /** The comparison sees columns and their types, nothing else; a table without columns counts as absent. */
  ghost predicate SameColumn(orm: Schema, mig: Schema, t: string, c: string) {
    var o, m := ColumnsOf(orm, t), ColumnsOf(mig, t);
    (c in o <==> c in m) && (c in o && c in m ==> o[c].typ == m[c].typ)
  }

  ghost predicate SameColumns(orm: Schema, mig: Schema) {
    forall t, c :: SameColumn(orm, mig, t, c)
  }

  lemma MismatchIff(o: Columns, m: Columns, c: string)
    requires c in o && c in m
    ensures (c, o[c].typ, m[c].typ) in Mismatches(o, m) <==> o[c].typ != m[c].typ
  {
    assert c in o.Keys * m.Keys;
  }

  lemma CleanTableIff(orm: Schema, mig: Schema, t: string)
    ensures DiffOf(orm, mig, t).Clean() <==> forall c :: SameColumn(orm, mig, t, c)
  {
    var o, m := ColumnsOf(orm, t), ColumnsOf(mig, t);
    var d := DiffOf(orm, mig, t);
    if d.Clean() {
      forall c
        ensures SameColumn(orm, mig, t, c)
      {
        assert c in o ==> c !in d.missingInMigration;
        assert c in m ==> c !in d.missingInOrm;
        if c in o && c in m {
          MismatchIff(o, m, c);
        }
      }
    } else if c :| c in d.missingInOrm || c in d.missingInMigration {
      assert !SameColumn(orm, mig, t, c);
    } else {
      var x :| x in d.typeMismatch;
      assert !SameColumn(orm, mig, t, x.0);
    }
  }

  /** No difference is reported exactly when both schemas have the same columns with the same types. */
  lemma NoDifferencesIff(orm: Schema, mig: Schema)
    ensures (forall t :: t in orm.Keys + mig.Keys ==> DiffOf(orm, mig, t).Clean()) <==> SameColumns(orm, mig)
  {
    if forall t :: t in orm.Keys + mig.Keys ==> DiffOf(orm, mig, t).Clean() {
      forall t, c
        ensures SameColumn(orm, mig, t, c)
      {
        CleanTableIff(orm, mig, t);
      }
    }
    if SameColumns(orm, mig) {
      forall t | t in orm.Keys + mig.Keys
        ensures DiffOf(orm, mig, t).Clean()
      {
        CleanTableIff(orm, mig, t);
      }
    }
  }

  lemma LastDefinitionIsUnique(ops: seq<Op>, t: string, c: string, i: nat, j: nat)
    requires LastDefinition(ops, t, c, i) && LastDefinition(ops, t, c, j)
    ensures i == j
  {
  }

  lemma TypeAfterIsUnique(ops: seq<Op>, t: string, c: string, i: nat, x: string, y: string)
    requires i < |ops| && Defines(ops[i], t, c)
    requires TypeAfter(ops, t, c, i, x) && TypeAfter(ops, t, c, i, y)
    ensures x == y
  {
  }

  /** What the ORM must declare for column `c` of table `t`, read off the operations alone. */
  ghost predicate Declared(orm: Schema, ops: seq<Op>, t: string, c: string) {
    && (c in ColumnsOf(orm, t) <==> exists i: nat :: LastDefinition(ops, t, c, i))
    && forall i: nat :: LastDefinition(ops, t, c, i) && c in ColumnsOf(orm, t) ==>
         TypeAfter(ops, t, c, i, ColumnsOf(orm, t)[c].typ)
  }

  /** The check is clean exactly when the ORM declares what the last writers of every column left. */
  lemma CleanCheckIff(orm: Schema, ops: seq<Op>)
    ensures (forall t :: t in orm.Keys + Replay(ops).Keys ==> DiffOf(orm, Replay(ops), t).Clean())
       <==> forall t, c :: Declared(orm, ops, t, c)
  {
    NoDifferencesIff(orm, Replay(ops));
    if SameColumns(orm, Replay(ops)) {
      forall t, c
        ensures Declared(orm, ops, t, c)
      {
        DeclaredIff(orm, ops, t, c);
      }
    } else {
      var t, c :| !SameColumn(orm, Replay(ops), t, c);
      DeclaredIff(orm, ops, t, c);
    }
  }

  lemma DeclaredIff(orm: Schema, ops: seq<Op>, t: string, c: string)
    ensures Declared(orm, ops, t, c) <==> SameColumn(orm, Replay(ops), t, c)
  {
    var o, m := ColumnsOf(orm, t), ColumnsOf(Replay(ops), t);
    PresentIff(ops, t, c);
    if c in o && c in m {
      var k := LastWriterWins(ops, t, c);
      forall i: nat | LastDefinition(ops, t, c, i)
        ensures i == k
      {
        LastDefinitionIsUnique(ops, t, c, i, k);
      }
      assert LastDefinition(ops, t, c, k) && TypeAfter(ops, t, c, k, m[c].typ);
      if TypeAfter(ops, t, c, k, o[c].typ) {
        TypeAfterIsUnique(ops, t, c, k, o[c].typ, m[c].typ);
      }
    }
  }
}
