/**
 * The bestiary: the regular enemies and the bosses, each list built from the
 * rows of one CSV file. Reading and parsing the files is outside the model:
 * a file is given as its sequence of rows, each row a sequence of fields.
 * Any enemy that fails to build aborts the whole load with its error.
 */
module Bestiaries {
  import opened Wrappers
  import opened Enemies

  /** The number of columns of a bestiary row. */
  const LineLength: nat := 6

  /** The six fields of one bestiary row, in column order. */
  datatype Record = Record(name: string, pageTypeField: string,
                           commonSteal: string, rareSteal: string,
                           commonDrop: string, rareDrop: string)

  /** Rows the loader passes over: empty, of the wrong width, or the header. */
  predicate IsSkipped(line: seq<string>) {
    line == [] || |line| != LineLength || line[0] == "Name"
  }

  /** Rows that become enemies: not skipped and with a non-empty name. */
  predicate IsKept(line: seq<string>) {
    !IsSkipped(line) && line[0] != ""
  }

  function Unpack(line: seq<string>): Record
    requires |line| == LineLength
  {
    Record(line[0], line[1], line[2], line[3], line[4], line[5])
  }

  /** The records of the kept rows, in file order. */
  function Records(lines: seq<seq<string>>): (r: seq<Record>)
    ensures |r| <= |lines|
    decreases |lines|
  {
    if lines == [] then []
    else
      var init := Records(lines[..|lines| - 1]);
      var line := lines[|lines| - 1];
      if IsKept(line) then init + [Unpack(line)] else init
  }

  /** The enemy a record describes, in a file whose enemies carry `bossFlag`. */
  function Construct(rec: Record, bossFlag: bool): Result<Enemy, EnemyError> {
    NewEnemy(rec.name, bossFlag, rec.pageTypeField,
             rec.commonSteal, rec.rareSteal, rec.commonDrop, rec.rareDrop)
  }

  /** The constructor for one file's records. */
  function Builder(bossFlag: bool): Record -> Result<Enemy, EnemyError> {
    rec => Construct(rec, bossFlag)
  }

  /**
   * Build one enemy per record, in order, stopping at the first record that
   * fails: the result is all enemies or the first error.
   */
  function ConstructAll(recs: seq<Record>, build: Record -> Result<Enemy, EnemyError>): Result<seq<Enemy>, EnemyError>
    decreases |recs|
  {
    if recs == [] then Ok([])
    else
      var init :- ConstructAll(recs[..|recs| - 1], build);
      var e :- build(recs[|recs| - 1]);
      Ok(init + [e])
  }

  /** What `__init_enemies` returns for a file with these rows. */
  function EnemiesFromRows(lines: seq<seq<string>>, bossFlag: bool): Result<seq<Enemy>, EnemyError> {
    ConstructAll(Records(lines), Builder(bossFlag))
  }

  /**
   * `__init_enemies`: walk the rows, skip the ones that are not records,
   * unpack the rest, and append an enemy for each row with a name.
   */
  method InitEnemies(lines: seq<seq<string>>, bossFlag: bool) returns (r: Result<seq<Enemy>, EnemyError>)
    ensures r == EnemiesFromRows(lines, bossFlag)
  {
    var enemies: seq<Enemy> := [];
    var i := 0;
    while i < |lines|
      invariant 0 <= i <= |lines|
      invariant ConstructAll(Records(lines[..i]), Builder(bossFlag)) == Ok(enemies)
    {
      var line := lines[i];
      InitStep(lines, i, Builder(bossFlag));
      if line == [] || |line| != LineLength || line[0] == "Name" {
        i := i + 1;
        continue;
      }
      var name, pageTypeField, commonSteal, rareSteal, commonDrop, rareDrop :=
        line[0], line[1], line[2], line[3], line[4], line[5];
      if name != "" {
        var e := NewEnemy(name, bossFlag, pageTypeField, commonSteal, rareSteal, commonDrop, rareDrop);
        BuilderOfLine(line, bossFlag);
        if e.Err? {
          return Err(e.error);
        }
        enemies := enemies + [e.value];
      }
      i := i + 1;
    }
    assert lines[..i] == lines;
    r := Ok(enemies);
  }

  /** The builder applied to an unpacked row is the enemy constructor on its fields. */
  lemma BuilderOfLine(line: seq<string>, bossFlag: bool)
    requires |line| == LineLength
    ensures Builder(bossFlag)(Unpack(line))
            == NewEnemy(line[0], bossFlag, line[1], line[2], line[3], line[4], line[5])
  {
  }

  /** What one more row does to the loader's result. */
  lemma InitStep(lines: seq<seq<string>>, i: nat, build: Record -> Result<Enemy, EnemyError>)
    requires i < |lines| && ConstructAll(Records(lines[..i]), build).Ok?
    ensures var before := ConstructAll(Records(lines[..i]), build).value;
      var line := lines[i];
      && (!IsKept(line) ==> ConstructAll(Records(lines[..i + 1]), build) == Ok(before))
      && (IsKept(line) ==>
            var e := build(Unpack(line));
            && (e.Ok? ==> ConstructAll(Records(lines[..i + 1]), build) == Ok(before + [e.value]))
            && (e.Err? ==> ConstructAll(Records(lines), build) == Err(e.error)))
  {
    RecordsStep(lines, i);
    if IsKept(lines[i]) {
      var x := Unpack(lines[i]);
      ConstructStep(Records(lines[..i]), x, build);
      if build(x).Err? {
        FirstErrorStops(lines, i + 1, build);
      }
    } else {
      assert Records(lines[..i]) + [] == Records(lines[..i]);
    }
  }

  /** One more row adds its record when it is kept. */
  lemma RecordsStep(lines: seq<seq<string>>, i: nat)
    requires i < |lines|
    ensures Records(lines[..i + 1])
            == Records(lines[..i]) + (if IsKept(lines[i]) then [Unpack(lines[i])] else [])
  {
    assert lines[..i + 1][..i] == lines[..i];
  }

  /** One more record either adds its enemy or ends with its error. */
  lemma ConstructStep(xs: seq<Record>, x: Record, build: Record -> Result<Enemy, EnemyError>)
    requires ConstructAll(xs, build).Ok?
    ensures build(x).Ok? ==> ConstructAll(xs + [x], build) == Ok(ConstructAll(xs, build).value + [build(x).value])
    ensures build(x).Err? ==> ConstructAll(xs + [x], build) == Err(build(x).error)
  {
    assert (xs + [x])[..|xs|] == xs;
  }

  // ---------------------------------------------------------------------
  // Records

  /** Filtering distributes over concatenation of row lists. */
  lemma {:induction false} RecordsConcat(a: seq<seq<string>>, b: seq<seq<string>>)
    ensures Records(a + b) == Records(a) + Records(b)
    decreases |b|
  {
    if b != [] {
      var front := b[..|b| - 1];
      assert (a + b)[..|a + b| - 1] == a + front;
      RecordsConcat(a, front);
    } else {
      assert a + b == a;
    }
  }

  /** A record is kept exactly when some kept row unpacks to it. */
  lemma {:induction false} RecordsMembership(lines: seq<seq<string>>, rec: Record)
    ensures rec in Records(lines) <==>
              exists j | 0 <= j < |lines| :: IsKept(lines[j]) && Unpack(lines[j]) == rec
    decreases |lines|
  {
    if lines != [] {
      var front := lines[..|lines| - 1];
      RecordsMembership(front, rec);
      if exists j | 0 <= j < |lines| :: IsKept(lines[j]) && Unpack(lines[j]) == rec {
        var j :| 0 <= j < |lines| && IsKept(lines[j]) && Unpack(lines[j]) == rec;
        if j < |lines| - 1 {
          assert front[j] == lines[j];
        }
      }
      if rec in Records(front) {
        var j :| 0 <= j < |front| && IsKept(front[j]) && Unpack(front[j]) == rec;
        assert lines[j] == front[j];
      }
    }
  }

  /** When every row is a named record, there is one record per row, in order. */
  lemma {:induction false} AllRowsKept(lines: seq<seq<string>>)
    requires forall j | 0 <= j < |lines| :: IsKept(lines[j])
    ensures |Records(lines)| == |lines|
    ensures forall j | 0 <= j < |lines| :: IsKept(lines[j]) && Records(lines)[j] == Unpack(lines[j])
    decreases |lines|
  {
    if lines != [] {
      var front := lines[..|lines| - 1];
      AllRowsKept(front);
    }
  }

  /**
   * A row that is not kept, such as a six-field row with an empty name,
   * adds nothing and raises nothing.
   */
  lemma UnkeptRowIgnored(lines: seq<seq<string>>, line: seq<string>, bossFlag: bool)
    requires !IsKept(line)
    ensures EnemiesFromRows(lines + [line], bossFlag) == EnemiesFromRows(lines, bossFlag)
  {
    assert (lines + [line])[..|lines|] == lines;
  }

  /** A file with only the header row gives no enemies. */
  lemma HeaderOnly(header: seq<string>, bossFlag: bool)
    requires |header| == LineLength && header[0] == "Name"
    ensures EnemiesFromRows([header], bossFlag) == Ok([])
  {
    assert [header][..0] == [];
  }

  // ---------------------------------------------------------------------
  // Construction

  /**
   * All records build exactly when each one does, and then the enemies are
   * the records' enemies, one per record, in record order.
   */
  lemma {:induction false} ConstructAllOk(recs: seq<Record>, build: Record -> Result<Enemy, EnemyError>)
    ensures var r := ConstructAll(recs, build);
      && (r.Ok? <==> forall k | 0 <= k < |recs| :: build(recs[k]).Ok?)
      && (r.Ok? ==> |r.value| == |recs|)
      && (r.Ok? ==> forall k | 0 <= k < |recs| :: r.value[k] == build(recs[k]).value)
    decreases |recs|
  {
    if recs != [] {
      var front := recs[..|recs| - 1];
      ConstructAllOk(front, build);
      var r := ConstructAll(recs, build);
      if r.Ok? {
        forall k | 0 <= k < |recs| ensures build(recs[k]).Ok? && r.value[k] == build(recs[k]).value {
          if k < |front| {
            assert recs[k] == front[k];
          }
        }
      }
      if forall k | 0 <= k < |recs| :: build(recs[k]).Ok? {
        assert forall k | 0 <= k < |front| :: build(front[k]).Ok? by {
          forall k | 0 <= k < |front| ensures build(front[k]).Ok? {
            assert front[k] == recs[k];
          }
        }
      }
    }
  }

  /** A failed build reports the error of the first record that fails. */
  lemma {:induction false} ConstructAllFirstError(recs: seq<Record>, build: Record -> Result<Enemy, EnemyError>)
    requires ConstructAll(recs, build).Err?
    ensures exists k | 0 <= k < |recs| ::
              && build(recs[k]) == Err(ConstructAll(recs, build).error)
              && forall j | 0 <= j < k :: build(recs[j]).Ok?
    decreases |recs|
  {
    var front := recs[..|recs| - 1];
    var r := ConstructAll(recs, build);
    if ConstructAll(front, build).Err? {
      ConstructAllFirstError(front, build);
      var k :| 0 <= k < |front| && build(front[k]) == Err(ConstructAll(front, build).error)
               && forall j | 0 <= j < k :: build(front[j]).Ok?;
      assert recs[k] == front[k];
      assert forall j | 0 <= j < k :: recs[j] == front[j];
    } else {
      ConstructAllOk(front, build);
      var k := |recs| - 1;
      assert forall j | 0 <= j < k :: recs[j] == front[j];
    }
  }

  /** Once a prefix of the records fails, more records do not change the error. */
  lemma {:induction false} ConstructAllErrPrefix(xs: seq<Record>, ys: seq<Record>, build: Record -> Result<Enemy, EnemyError>)
    requires ConstructAll(xs, build).Err?
    ensures ConstructAll(xs + ys, build) == ConstructAll(xs, build)
    decreases |ys|
  {
    if ys != [] {
      var front := ys[..|ys| - 1];
      assert (xs + ys)[..|xs + ys| - 1] == xs + front;
      ConstructAllErrPrefix(xs, front, build);
    } else {
      assert xs + ys == xs;
    }
  }

  /** The error of the first `n` rows is the error of the whole file. */
  lemma FirstErrorStops(lines: seq<seq<string>>, n: nat, build: Record -> Result<Enemy, EnemyError>)
    requires n <= |lines|
    requires ConstructAll(Records(lines[..n]), build).Err?
    ensures ConstructAll(Records(lines), build) == ConstructAll(Records(lines[..n]), build)
  {
    assert lines == lines[..n] + lines[n..];
    RecordsConcat(lines[..n], lines[n..]);
    ConstructAllErrPrefix(Records(lines[..n]), Records(lines[n..]), build);
  }

  /** Every enemy loaded from a file carries the file's boss flag and is valid. */
  lemma LoadedEnemies(lines: seq<seq<string>>, bossFlag: bool)
    requires EnemiesFromRows(lines, bossFlag).Ok?
    ensures forall e | e in EnemiesFromRows(lines, bossFlag).value :: e.isBoss == bossFlag && e.Valid()
  {
    var recs := Records(lines);
    var es := EnemiesFromRows(lines, bossFlag).value;
    ConstructAllOk(recs, Builder(bossFlag));
    forall e | e in es ensures e.isBoss == bossFlag && e.Valid() {
      var k :| 0 <= k < |es| && es[k] == e;
      assert Builder(bossFlag)(recs[k]) == Construct(recs[k], bossFlag);
    }
  }

  // ---------------------------------------------------------------------
  // The bestiary

  /** The two lists, regular enemies first, as the bestiary keeps them. */
  datatype Bestiary = Bestiary(enemies: seq<Enemy>, bosses: seq<Enemy>) {

    /** Regular enemies are not bosses, bosses are, and every enemy is valid. */
    predicate Valid() {
      && (forall e | e in enemies :: !e.isBoss && e.Valid())
      && (forall e | e in bosses :: e.isBoss && e.Valid())
    }

    /** Both lists, regular enemies first. */
    function AllEnemies(): seq<Enemy> {
      enemies + bosses
    }
  }

  /** In a valid bestiary, the combined list holds the regular enemies and then the bosses. */
  lemma AllEnemiesSplit(b: Bestiary)
    requires b.Valid()
    ensures |b.AllEnemies()| == |b.enemies| + |b.bosses|
    ensures forall i | 0 <= i < |b.AllEnemies()| ::
              b.AllEnemies()[i].isBoss <==> i >= |b.enemies|
    ensures forall e | e in b.AllEnemies() :: e.Valid()
  {
    var all := b.AllEnemies();
    forall i | 0 <= i < |all| ensures all[i].isBoss <==> i >= |b.enemies| {
      if i < |b.enemies| {
        assert all[i] == b.enemies[i];
      } else {
        assert all[i] == b.bosses[i - |b.enemies|];
      }
    }
  }

  /** The bestiary the two files describe: regular enemies first, then bosses. */
  function BestiaryFromRows(enemyLines: seq<seq<string>>, bossLines: seq<seq<string>>): Result<Bestiary, EnemyError> {
    var enemies :- EnemiesFromRows(enemyLines, false);
    var bosses :- EnemiesFromRows(bossLines, true);
    Ok(Bestiary(enemies, bosses))
  }

  /** The bestiary constructor: load the regular enemies, then the bosses. */
  method LoadBestiary(enemyLines: seq<seq<string>>, bossLines: seq<seq<string>>) returns (r: Result<Bestiary, EnemyError>)
    ensures r == BestiaryFromRows(enemyLines, bossLines)
    ensures r.Ok? ==> r.value.Valid()
  {
    var enemies := InitEnemies(enemyLines, false);
    if enemies.Err? {
      return Err(enemies.error);
    }
    var bosses := InitEnemies(bossLines, true);
    if bosses.Err? {
      return Err(bosses.error);
    }
    LoadedEnemies(enemyLines, false);
    LoadedEnemies(bossLines, true);
    r := Ok(Bestiary(enemies.value, bosses.value));
  }
}
