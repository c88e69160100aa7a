/** The order in which the initial migration creates its tables (scripts/generate_initial_migration.py). */
module TableOrder {
  import opened Wrappers
  import opened Ordering
  import opened Graphs

  /** A column, with the `table.column` its foreign key names, if it has one. */
  datatype Column = Column(name: string, fk: Option<string>)

  datatype Failure = CyclicForeignKeys

  type Specs = map<string, seq<Column>>

  /** `ref.split(".")[0]` */
  function TableOf(reference: string): string {
    if reference == [] || reference[0] == '.' then []
    else [reference[0]] + TableOf(reference[1..])
  }

  function Deps(specs: Specs, t: string): set<string>
    requires t in specs
  {
    (set c | c in specs[t] && c.fk.Some? :: TableOf(c.fk.value)) - {t}
  }

  ghost function ForeignKeys(tables: set<string>, specs: Specs): set<(string, string)>
    requires tables <= specs.Keys
  {
    set t, d | t in tables && d in Deps(specs, t) :: (t, d)
  }

  ghost predicate TargetsAreTables(tables: set<string>, specs: Specs)
    requires tables <= specs.Keys
  {
    forall t :: t in tables ==> Deps(specs, t) <= tables
  }

  /** Every table exactly once, each after all the tables its foreign keys point at. */
  ghost predicate CreatesTargetsFirst(tables: set<string>, specs: Specs, out: seq<string>)
    requires tables <= specs.Keys
  {
    && Distinct(out)
    && (set t | t in out) == tables
    && forall i :: 0 <= i < |out| ==> out[i] in tables && forall d :: d in Deps(specs, out[i]) ==> d in out[..i]
  }

  /** At the first place where another admissible order differs, this one has the smaller name. */
  ghost predicate LeastSuchOrder(tables: set<string>, specs: Specs, out: seq<string>)
    requires tables <= specs.Keys
  {
    forall other, i :: CreatesTargetsFirst(tables, specs, other) && 0 <= i < |out| && i < |other|
      && other[..i] == out[..i]
      ==> StringLe(out[i], other[i])
  }

  lemma {:induction false} InsertKeepsDistinct(x: string, s: seq<string>)
    requires Distinct(s) && x !in s
    ensures Distinct(InsertBy(StringLe, x, s))
    ensures forall t :: t in InsertBy(StringLe, x, s) <==> t == x || t in s
  {
    if s != [] && !StringLe(x, s[0]) {
      InsertKeepsDistinct(x, s[1..]);
      assert s == [s[0]] + s[1..];
      assert s[0] !in s[1..];
    }
  }

  /** `sorted(names)` */
  method Sorted(names: set<string>) returns (r: seq<string>)
    ensures SortedBy(StringLe, r) && Distinct(r)
    ensures forall t :: t in r <==> t in names
  {
    var rest := names;
    r := [];
    StringOrder();
    while rest != {}
      invariant rest <= names && SortedBy(StringLe, r) && Distinct(r)
      invariant forall t :: t in r <==> t in names - rest
      decreases rest
    {
      var t :| t in rest;
      InsertSorted(StringLe, t, r);
      InsertKeepsDistinct(t, r);
      r, rest := InsertBy(StringLe, t, r), rest - {t};
    }
  }

  ghost predicate Ready(tables: set<string>, specs: Specs, out: seq<string>, t: string)
    requires tables <= specs.Keys
  {
    t in tables && t !in out && forall d :: d in Deps(specs, t) ==> d in out
  }

  lemma {:induction false} DistinctSize(s: seq<string>)
    requires Distinct(s)
    ensures |set t | t in s| == |s|
  {
    if s != [] {
      DistinctSize(s[1..]);
      assert (set t | t in s) == {s[0]} + (set t | t in s[1..]);
    }
  }

  lemma DistinctWithin(s: seq<string>, tables: set<string>)
    requires Distinct(s) && forall t :: t in s ==> t in tables
    ensures |s| <= |tables|
  {
    DistinctSize(s);
    SubsetSize((set t | t in s), tables);
  }

  lemma SameSize(s: seq<string>, tables: set<string>)
    requires Distinct(s) && |s| >= |tables| && forall t :: t in s ==> t in tables
    ensures (set t | t in s) == tables
  {
    DistinctSize(s);
    SubsetSize((set t | t in s), tables);
  }

  /** Nothing ready and tables left over: a target is no table, or the leftover tables hold a cycle. */
  lemma Stuck(tables: set<string>, specs: Specs, out: seq<string>)
    requires tables <= specs.Keys && |out| < |tables|
    requires Distinct(out)
    requires forall t :: !Ready(tables, specs, out, t)
    ensures !TargetsAreTables(tables, specs) || HasCycle(ForeignKeys(tables, specs))
  {
    var left := set t | t in tables && t !in out;
    assert left != {} by {
      if left == {} {
        DistinctSize(out);
        assert forall t :: t in tables && t !in out ==> t in left;
        SubsetSize(tables, (set t | t in out));
      }
    }
    if TargetsAreTables(tables, specs) {
      forall u | u in left ensures exists v :: v in left && (u, v) in ForeignKeys(tables, specs) {
        assert !Ready(tables, specs, out, u);
        var d :| d in Deps(specs, u) && d !in out;
        assert d in left && (u, d) in ForeignKeys(tables, specs);
      }
      NoSinkHasCycle(ForeignKeys(tables, specs), left);
    }
  }

  ghost function IndexIn(s: seq<string>, t: string): (i: nat)
    requires t in s
    ensures i < |s| && s[i] == t
  {
    var i :| 0 <= i < |s| && s[i] == t;
    i
  }

  lemma OrderRefutesCycles(tables: set<string>, specs: Specs, out: seq<string>)
    requires tables <= specs.Keys && CreatesTargetsFirst(tables, specs, out)
    ensures TargetsAreTables(tables, specs) && !HasCycle(ForeignKeys(tables, specs))
  {
    forall t | t in tables ensures t in out {
      assert t in set u | u in out;
    }
    forall t, d | t in tables && d in Deps(specs, t) ensures d in tables {
      var i :| 0 <= i < |out| && out[i] == t;
      assert d in out[..i];
      assert d in out;
    }
    var rank: map<string, nat> := map t | t in tables :: IndexIn(out, t);
    forall e | e in ForeignKeys(tables, specs) ensures e.0 in rank && e.1 in rank && rank[e.1] < rank[e.0] {
      var i := IndexIn(out, e.0);
      assert e.1 in out[..i];
      var j :| 0 <= j < i && out[j] == e.1;
      assert IndexIn(out, e.1) == j;
    }
    RankedIsAcyclic(ForeignKeys(tables, specs), rank);
  }

  lemma Finished(tables: set<string>, specs: Specs, out: seq<string>)
    requires tables <= specs.Keys && Distinct(out) && (set t | t in out) == tables
    requires forall i :: 0 <= i < |out| ==> out[i] in tables && forall d :: d in Deps(specs, out[i]) ==> d in out[..i]
    requires forall i, t :: 0 <= i < |out| && Ready(tables, specs, out[..i], t) ==> StringLe(out[i], t)
    ensures TargetsAreTables(tables, specs) && !HasCycle(ForeignKeys(tables, specs))
    ensures CreatesTargetsFirst(tables, specs, out) && LeastSuchOrder(tables, specs, out)
  {
    OrderRefutesCycles(tables, specs, out);
    forall other, i | CreatesTargetsFirst(tables, specs, other) && 0 <= i < |out| && i < |other|
      && other[..i] == out[..i]
      ensures StringLe(out[i], other[i])
    {
      assert Ready(tables, specs, other[..i], other[i]);
    }
  }

  method Order(tables: set<string>, specs: Specs) returns (r: Result<seq<string>, Failure>)
    requires tables <= specs.Keys
    ensures r.Ok? <==> TargetsAreTables(tables, specs) && !HasCycle(ForeignKeys(tables, specs))
    ensures r.Ok? ==> CreatesTargetsFirst(tables, specs, r.value) && LeastSuchOrder(tables, specs, r.value)
  {
    var out: seq<string> := [];
    while |out| < |tables|
      invariant Distinct(out) && (forall t :: t in out ==> t in tables) && |out| <= |tables|
      invariant forall i :: 0 <= i < |out| ==> forall d :: d in Deps(specs, out[i]) ==> d in out[..i]
      invariant forall i, t :: 0 <= i < |out| && Ready(tables, specs, out[..i], t) ==> StringLe(out[i], t)
    {
      var ready := Sorted(set t | t in tables && t !in out && Deps(specs, t) <= (set u | u in out));
      assert forall t :: Ready(tables, specs, out, t) ==> t in ready;
      if ready == [] {
        Stuck(tables, specs, out);
        return Err(CyclicForeignKeys);
      }
      assert ready[0] in ready;
      StringOrder();
      assert out == (out + [ready[0]])[..|out|];
      ghost var before := out;
      out := out + [ready[0]];
      forall i | 0 <= i < |before| ensures out[..i] == before[..i] {}
      DistinctWithin(out, tables);
    }
    SameSize(out, tables);
    Finished(tables, specs, out);
    r := Ok(out);
  }

  // ---- In terms of the foreign keys as they are written ----

  lemma {:induction false} TableOfTable(table: string, column: string)
    requires '.' !in table
    ensures TableOf(table + "." + column) == table && TableOf(table) == table
  {
    if table != "" {
      TableOfTable(table[1..], column);
      assert (table + "." + column)[1..] == table[1..] + "." + column;
      assert table == [table[0]] + table[1..];
    }
  }

  /** The column refers to a column of the table. */
  ghost predicate RefersTo(c: Column, table: string) {
    exists column :: c.fk == Some(table + "." + column)
  }

  /** A table is created after every other table that one of its columns refers to. */
  lemma TargetsComeFirst(tables: set<string>, specs: Specs, out: seq<string>, i: nat, c: Column, table: string)
    requires tables <= specs.Keys && CreatesTargetsFirst(tables, specs, out) && i < |out|
    requires c in specs[out[i]] && RefersTo(c, table) && '.' !in table && table != out[i]
    ensures table in out[..i]
  {
    var column :| c.fk == Some(table + "." + column);
    TableOfTable(table, column);
    assert table in Deps(specs, out[i]);
  }

  /** All references are written as table and column. */
  ghost predicate WellWritten(specs: Specs) {
    forall t, c :: t in specs && c in specs[t] && c.fk.Some? ==> exists table :: '.' !in table && RefersTo(c, table)
  }

  /** The tables that come first are exactly the others that a column refers to; a table may refer to itself. */
  lemma DepsAre(specs: Specs, t: string, d: string)
    requires WellWritten(specs) && t in specs
    ensures d in Deps(specs, t) <==> d != t && '.' !in d && exists c :: c in specs[t] && RefersTo(c, d)
  {
    if c :| c in specs[t] && c.fk.Some? && TableOf(c.fk.value) == d && d != t {
      var table :| '.' !in table && RefersTo(c, table);
      var column :| c.fk == Some(table + "." + column);
      TableOfTable(table, column);
    }
    if '.' !in d {
      if c :| c in specs[t] && RefersTo(c, d) {
        var column :| c.fk == Some(d + "." + column);
        TableOfTable(d, column);
      }
    }
  }
}
