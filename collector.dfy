/**
 * `get_stats`: the info dictionary and the stats records filtered by the
 * configured monitors and ignore list and flattened into one dictionary
 * from metric key to integer value.
 */
module Collector {
  import opened Wrappers
  import opened Text
  import opened MetricTypes
  import opened InfoReport
  import opened StatsReport
  import opened Configuration

  /** Why `get_stats` raises on a stats record instead of returning. */
  datatype Fault =
      /** `statdict[column]` raised `KeyError`, or its cell was `None` and `.lower()` raised. */
    | MissingColumn(column: String)
      /** A record with more fields than the header: joining its `None` key raised `TypeError`. */
    | OverflowFields

  /** `'.'.join([svname.lower(), pxname.lower(), ''])`: what every key of a record starts with. */
  function RowPrefix(svname: String, pxname: String): String
  {
    Lower(svname) + [Delim] + Lower(pxname) + [Delim]
  }

  /** `'.'.join([svname.lower(), pxname.lower(), field])`. */
  function CompositeKey(svname: String, pxname: String, field: String): String
  {
    RowPrefix(svname, pxname) + field
  }

  /** A record's entity class or proxy, lower-cased, is one of the monitors. */
  predicate Monitored(svname: String, pxname: String, monitors: seq<String>)
  {
    Lower(svname) in monitors || Lower(pxname) in monitors
  }

  /** The record filter: monitored, and the proxy name, exactly as received, not ignored. */
  predicate KeepRow(svname: String, pxname: String, cfg: Config)
  {
    Monitored(svname, pxname, cfg.monitors) && Str(pxname) !in cfg.ignore
  }

  /** What `int()` makes of every cell: a number, or `None` where it raises `ValueError`. */
  function Parse(cells: map<String, String>): (p: map<String, Option<int>>)
    ensures p.Keys == cells.Keys
    ensures forall k :: k in cells ==> p[k] == ParseInt(cells[k])
  {
    map k | k in cells :: ParseInt(cells[k])
  }

  /** The numbers among parsed cells. */
  function Ints(p: map<String, Option<int>>): (m: map<String, int>)
    ensures forall k :: k in m <==> k in p && p[k].Some?
    ensures forall k :: k in m ==> m[k] == p[k].value
  {
    map k | k in p && p[k].Some? :: p[k].value
  }

  /** The cells whose value `int()` accepts, converted; the others are dropped, not zeroed. */
  function IntCells(cells: map<String, String>): (m: map<String, int>)
  {
    Ints(Parse(cells))
  }

  lemma PrefixInjective(prefix: String, a: String, b: String)
    requires prefix + a == prefix + b
    ensures a == b
  {
    assert a == (prefix + a)[|prefix|..];
    assert b == (prefix + b)[|prefix|..];
  }

  /** Every key of `m` with `prefix` put in front. */
  function Prefixed(prefix: String, m: map<String, int>): (r: map<String, int>)
    ensures forall k :: k in m <==> prefix + k in r
    ensures forall k :: k in m ==> r[prefix + k] == m[k]
    ensures forall k :: k in r ==> |prefix| <= |k| && k[..|prefix|] == prefix
  {
    assert forall a, b :: a in m && b in m && prefix + a == prefix + b ==> a == b by {
      forall a, b | a in m && b in m && prefix + a == prefix + b ensures a == b {
        PrefixInjective(prefix, a, b);
      }
    }
    var r := map k | k in m :: prefix + k := m[k];
    assert forall k :: k in r ==> exists j :: j in m && k == prefix + j;
    forall k | prefix + k in r ensures k in m {
      var j :| j in m && prefix + k == prefix + j;
      PrefixInjective(prefix, k, j);
    }
    r
  }

  /**
   * What one record adds to the dictionary, or the error `get_stats`
   * raises on it, following the order of the checks in the source.
   */
  function RowOutcome(cfg: Config, row: Row): Result<map<String, int>, Fault>
  {
    if "svname" !in row.cells then Err(MissingColumn("svname"))
    else
      var sv := row.cells["svname"];
      if Lower(sv) !in cfg.monitors && "pxname" !in row.cells then Err(MissingColumn("pxname"))
      else if !(Lower(sv) in cfg.monitors || Lower(row.cells["pxname"]) in cfg.monitors) then Ok(map[])
      else if "pxname" !in row.cells then Err(MissingColumn("pxname"))
      else if Str(row.cells["pxname"]) in cfg.ignore then Ok(map[])
      else if row.overflow != [] then Err(OverflowFields)
      else Ok(Prefixed(RowPrefix(sv, row.cells["pxname"]), IntCells(row.cells)))
  }

  /** The records processed in order on top of `acc`; later writes win, the first error stops. */
  function FlattenRows(cfg: Config, acc: map<String, int>, rows: seq<Row>): Result<map<String, int>, Fault>
    decreases |rows|
  {
    if rows == [] then Ok(acc)
    else
      match RowOutcome(cfg, rows[0])
      case Err(e) => Err(e)
      case Ok(m) => FlattenRows(cfg, acc + m, rows[1..])
  }

  /** The info entries, kept only when `server` is monitored, then the records. */
  function Flatten(cfg: Config, info: map<String, String>, rows: seq<Row>): Result<map<String, int>, Fault>
  {
    FlattenRows(cfg, if "server" in cfg.monitors then IntCells(info) else map[], rows)
  }

  /**
   * `get_stats` on the two socket replies; `None` stands for a reply the
   * socket failed to deliver, which makes the result the empty dictionary.
   */
  function GetStatsOf(cfg: Config, infoReply: Option<String>, statReply: Option<String>): Result<map<String, int>, Fault>
  {
    if infoReply.None? || statReply.None? then Ok(map[])
    else Flatten(cfg, InfoOf(SplitLines(infoReply.value)), GetServerStats(statReply.value))
  }

  /** Prefixing by nothing changes nothing. */
  lemma PrefixedEmpty(m: map<String, int>)
    ensures Prefixed([], m) == m
  {
    var r := Prefixed([], m);
    forall k ensures k in r <==> k in m {
      assert [] + k == k;
    }
  }

  /** Prefixing commutes with storing one more key. */
  lemma PrefixedUpdate(prefix: String, m: map<String, int>, k: String, n: int)
    ensures Prefixed(prefix, m[k := n]) == Prefixed(prefix, m)[prefix + k := n]
  {
    var l, r := Prefixed(prefix, m[k := n]), Prefixed(prefix, m)[prefix + k := n];
    forall j | j in l || j in r ensures j in l && j in r && l[j] == r[j] {
      var c := j[|prefix|..];
      assert j == prefix + c;
      if c != k {
        assert prefix + c != prefix + k;
      }
    }
  }

  /** One more parsed cell holding a number adds that number. */
  lemma IntsAddSome(p: map<String, Option<int>>, k: String, n: int)
    requires k !in p
    ensures Ints(p[k := Some(n)]) == Ints(p)[k := n]
  {
    var l, r := Ints(p[k := Some(n)]), Ints(p)[k := n];
    forall j | j != k ensures (j in l <==> j in r) && (j in l ==> l[j] == r[j]) {
      assert j in p[k := Some(n)] <==> j in p;
    }
  }

  /** One more parsed cell that is not a number adds nothing. */
  lemma IntsAddNone(p: map<String, Option<int>>, k: String)
    requires k !in p
    ensures Ints(p[k := None]) == Ints(p)
  {
    var l, r := Ints(p[k := None]), Ints(p);
    forall j | j != k ensures (j in l <==> j in r) && (j in l ==> l[j] == r[j]) {
      assert j in p[k := None] <==> j in p;
    }
  }

  lemma UnionUpdate(a: map<String, int>, b: map<String, int>, x: String, n: int)
    ensures a + b[x := n] == (a + b)[x := n]
  {
    var l, r := a + b[x := n], (a + b)[x := n];
    forall j | j in l || j in r ensures j in l && j in r && l[j] == r[j] {
    }
  }

  lemma UnionEmpty(m: map<String, int>)
    ensures map[] + m == m
  {
    var l := map[] + m;
    forall j | j in l || j in m ensures j in l && j in m && l[j] == m[j] {
    }
  }


  /** One more parsed cell stored on top of a dictionary that already holds the earlier ones. */
  lemma StoreIntsStep(stats: map<String, int>, prefix: String, done: map<String, Option<int>>, k: String, o: Option<int>)
    requires k !in done
    ensures stats + Prefixed(prefix, Ints(done[k := o])) ==
      (match o
       case Some(n) => (stats + Prefixed(prefix, Ints(done)))[prefix + k := n]
       case None => stats + Prefixed(prefix, Ints(done)))
  {
    match o {
      case Some(n) =>
        IntsAddSome(done, k, n);
        var q := Prefixed(prefix, Ints(done));
        PrefixedUpdate(prefix, Ints(done), k, n);
        UnionUpdate(stats, q, prefix + k, n);
      case None =>
        IntsAddNone(done, k);
    }
  }

  /** Parsing one more cell adds what `int()` makes of it. */
  lemma ParseAdd(cells: map<String, String>, k: String, v: String)
    requires k !in cells
    ensures Parse(cells[k := v]) == Parse(cells)[k := ParseInt(v)]
  {
    var l, r := Parse(cells[k := v]), Parse(cells)[k := ParseInt(v)];
    forall j | j in l || j in r ensures j in l && j in r && l[j] == r[j] {
    }
  }

  /** Taking one more column out of the to-do set stores its number, if `int()` reads one. */
  lemma StoreIntsNext(stats: map<String, int>, prefix: String, cells: map<String, String>, todo: set<String>, k: String,
                      out: map<String, int>, parsed: Option<int>)
    requires k in todo && todo <= cells.Keys && parsed == ParseInt(cells[k])
    requires out == stats + Prefixed(prefix, IntCells(cells - todo))
    ensures parsed.Some? ==> out[prefix + k := parsed.value] == stats + Prefixed(prefix, IntCells(cells - (todo - {k})))
    ensures parsed.None? ==> out == stats + Prefixed(prefix, IntCells(cells - (todo - {k})))
  {
    var done := cells - todo;
    MinusStep(cells, todo, k);
    ParseAdd(done, k, cells[k]);
    StoreIntsStep(stats, prefix, Parse(done), k, ParseInt(cells[k]));
  }

  /** Before the loop nothing is stored yet. */
  lemma StoreIntsStart(stats: map<String, int>, prefix: String, cells: map<String, String>)
    ensures stats + Prefixed(prefix, IntCells(cells - cells.Keys)) == stats
  {
    assert cells - cells.Keys == map[];
    assert Prefixed(prefix, IntCells(map[])) == map[];
  }

  /** Taking one more key out of the to-do set adds its cell to what is done. */
  lemma MinusStep(cells: map<String, String>, todo: set<String>, k: String)
    requires k in todo && k in cells
    ensures cells - (todo - {k}) == (cells - todo)[k := cells[k]]
  {
    var l, r := cells - (todo - {k}), (cells - todo)[k := cells[k]];
    forall j | j in l || j in r ensures j in l && j in r && l[j] == r[j] {
    }
  }

  lemma MinusNothing(cells: map<String, String>)
    ensures cells - {} == cells
  {
  }

  // ------------------------------------------------------------ the method

  /** The try/int loop of `get_stats`: every integer cell stored under `prefix + column`. */
  method StoreInts(stats: map<String, int>, prefix: String, cells: map<String, String>)
    returns (out: map<String, int>)
    ensures out == stats + Prefixed(prefix, IntCells(cells))
  {
    out := stats;
    var todo := cells.Keys;
    StoreIntsStart(stats, prefix, cells);
    while todo != {}
      invariant todo <= cells.Keys
      invariant out == stats + Prefixed(prefix, IntCells(cells - todo))
      decreases |todo|
    {
      var k :| k in todo;
      var parsed := ParseInt(cells[k]);
      StoreIntsNext(stats, prefix, cells, todo, k, out, parsed);
      if parsed.Some? {
        out := out[prefix + k := parsed.value];
      }
      todo := todo - {k};
    }
    MinusNothing(cells);
  }

  /**
   * One pass of the record loop of `get_stats`: the record is skipped,
   * or its integer cells are stored, or the call raises.
   */
  method StoreRow(cfg: Config, stats: map<String, int>, row: Row) returns (r: Result<map<String, int>, Fault>)
    ensures r == (match RowOutcome(cfg, row) case Err(e) => Err(e) case Ok(m) => Ok(stats + m))
  {
    if "svname" !in row.cells {
      return Err(MissingColumn("svname"));
    }
    var sv := row.cells["svname"];
    var monitored := Lower(sv) in cfg.monitors;
    if !monitored {
      if "pxname" !in row.cells {
        return Err(MissingColumn("pxname"));
      }
      monitored := Lower(row.cells["pxname"]) in cfg.monitors;
    }
    assert stats + map[] == stats;
    if !monitored {
      return Ok(stats);
    }
    if "pxname" !in row.cells {
      return Err(MissingColumn("pxname"));
    }
    var px := row.cells["pxname"];
    if Str(px) in cfg.ignore {
      return Ok(stats);
    }
    if row.overflow != [] {
      return Err(OverflowFields);
    }
    var out := StoreInts(stats, RowPrefix(sv, px), row.cells);
    r := Ok(out);
  }

  /**
   * `get_stats`: transport failure gives the empty dictionary; otherwise
   * the info entries (when `server` is monitored) and every kept record's
   * integer cells are stored in one dictionary, or the call raises.
   */
  method GetStats(cfg: Config, infoReply: Option<String>, statReply: Option<String>)
    returns (r: Result<map<String, int>, Fault>)
    ensures infoReply.None? || statReply.None? ==> r == Ok(map[])
    ensures r == GetStatsOf(cfg, infoReply, statReply)
  {
    if infoReply.None? || statReply.None? {
      return Ok(map[]);
    }
    var info := GetServerInfo(infoReply.value);
    var rows := GetServerStats(statReply.value);
    var stats: map<String, int> := map[];
    if "server" in cfg.monitors {
      stats := StoreInts(stats, [], info);
      PrefixedEmpty(IntCells(info));
      UnionEmpty(IntCells(info));
    }
    r := StoreRows(cfg, stats, rows);
  }

  /** The record loop of `get_stats`, on top of what is already stored. */
  method StoreRows(cfg: Config, stats: map<String, int>, rows: seq<Row>) returns (r: Result<map<String, int>, Fault>)
    ensures r == FlattenRows(cfg, stats, rows)
  {
    var out := stats;
    assert rows[0..] == rows;
    for i := 0 to |rows|
      invariant FlattenRows(cfg, stats, rows) == FlattenRows(cfg, out, rows[i..])
    {
      assert rows[i..][1..] == rows[i + 1..];
      assert rows[i..][0] == rows[i];
      var step := StoreRow(cfg, out, rows[i]);
      if step.Err? {
        return Err(step.error);
      }
      out := step.value;
    }
    assert rows[|rows|..] == [];
    r := Ok(out);
  }

  // ------------------------------------------------------------ properties

  /** The records are processed in order: a prefix of them, then the rest on its result. */
  lemma {:induction false} FlattenRowsAppend(cfg: Config, acc: map<String, int>, pre: seq<Row>, post: seq<Row>)
    ensures FlattenRows(cfg, acc, pre + post) ==
      (match FlattenRows(cfg, acc, pre)
       case Err(e) => Err(e)
       case Ok(m) => FlattenRows(cfg, m, post))
    decreases |pre|
  {
    if pre != [] {
      assert (pre + post)[0] == pre[0];
      assert (pre + post)[1..] == pre[1..] + post;
      match RowOutcome(cfg, pre[0]) {
        case Err(e) =>
        case Ok(m) => FlattenRowsAppend(cfg, acc + m, pre[1..], post);
      }
    } else {
      assert pre + post == post;
    }
  }

  /** A record that adds nothing can be taken out of the report without changing the result. */
  lemma NeutralRowSkipped(cfg: Config, acc: map<String, int>, pre: seq<Row>, row: Row, post: seq<Row>)
    requires RowOutcome(cfg, row) == Ok(map[])
    ensures FlattenRows(cfg, acc, pre + [row] + post) == FlattenRows(cfg, acc, pre + post)
  {
    FlattenRowsAppend(cfg, acc, pre + [row], post);
    FlattenRowsAppend(cfg, acc, pre, [row]);
    FlattenRowsAppend(cfg, acc, pre, post);
    match FlattenRows(cfg, acc, pre) {
      case Err(e) =>
      case Ok(m) =>
        assert [row][1..] == [];
        assert m + map[] == m;
    }
  }

  /**
   * A record whose entity class and proxy name, lower-cased, are both
   * unmonitored contributes nothing, whatever the ignore list holds.
   */
  lemma UnmonitoredRowSkipped(cfg: Config, acc: map<String, int>, pre: seq<Row>, row: Row, post: seq<Row>)
    requires "svname" in row.cells && "pxname" in row.cells
    requires !Monitored(row.cells["svname"], row.cells["pxname"], cfg.monitors)
    ensures FlattenRows(cfg, acc, pre + [row] + post) == FlattenRows(cfg, acc, pre + post)
  {
    NeutralRowSkipped(cfg, acc, pre, row, post);
  }

  /** A record whose proxy name, exactly as received, is ignored contributes nothing, monitored or not. */
  lemma IgnoredRowSkipped(cfg: Config, acc: map<String, int>, pre: seq<Row>, row: Row, post: seq<Row>)
    requires "svname" in row.cells && "pxname" in row.cells
    requires Str(row.cells["pxname"]) in cfg.ignore
    ensures FlattenRows(cfg, acc, pre + [row] + post) == FlattenRows(cfg, acc, pre + post)
  {
    NeutralRowSkipped(cfg, acc, pre, row, post);
  }

  /**
   * A kept record without overflow adds exactly its integer cells, each
   * under the record's composite key: `svname.lower()`, `pxname.lower()`
   * and the column joined by dots.
   */
  lemma KeptRowKeys(cfg: Config, row: Row)
    requires "svname" in row.cells && "pxname" in row.cells && row.overflow == []
    requires KeepRow(row.cells["svname"], row.cells["pxname"], cfg)
    ensures RowOutcome(cfg, row).Ok?
    ensures var m := RowOutcome(cfg, row).value; var sv, px := row.cells["svname"], row.cells["pxname"];
      forall f :: CompositeKey(sv, px, f) in m <==> f in row.cells && ParseInt(row.cells[f]).Some?
    ensures var m := RowOutcome(cfg, row).value; var sv, px := row.cells["svname"], row.cells["pxname"];
      forall f :: CompositeKey(sv, px, f) in m ==> m[CompositeKey(sv, px, f)] == ParseInt(row.cells[f]).value
    ensures var m := RowOutcome(cfg, row).value; var p := RowPrefix(row.cells["svname"], row.cells["pxname"]);
      forall k :: k in m ==> |p| <= |k| && k[..|p|] == p
  {
  }

  /** The keys a record adds all hold a dot: the one that ends the record's prefix. */
  lemma RowKeysDotted(cfg: Config, row: Row)
    requires RowOutcome(cfg, row).Ok?
    ensures forall k :: k in RowOutcome(cfg, row).value ==> Delim in k
  {
    var m := RowOutcome(cfg, row).value;
    if m != map[] {
      var p := RowPrefix(row.cells["svname"], row.cells["pxname"]);
      forall k | k in m ensures Delim in k {
        assert k[|p| - 1] == p[|p| - 1] == Delim;
      }
    }
  }

  /** The records never touch a key without a dot: those keep the value they had before. */
  lemma {:induction false} FlattenRowsKeepsPlainKeys(cfg: Config, acc: map<String, int>, rows: seq<Row>, k: String)
    requires FlattenRows(cfg, acc, rows).Ok? && Delim !in k
    ensures k in FlattenRows(cfg, acc, rows).value <==> k in acc
    ensures k in acc ==> FlattenRows(cfg, acc, rows).value[k] == acc[k]
    decreases |rows|
  {
    if rows != [] {
      RowKeysDotted(cfg, rows[0]);
      var m := RowOutcome(cfg, rows[0]).value;
      assert k !in m;
      FlattenRowsKeepsPlainKeys(cfg, acc + m, rows[1..], k);
    }
  }

  /**
   * An info entry, whose key holds no dot, is in the dictionary iff
   * `server` is monitored and `int()` reads its value, and it then holds
   * that number; an entry that is not a number is absent, not zero.
   */
  lemma InfoEntryStored(cfg: Config, info: map<String, String>, rows: seq<Row>, k: String)
    requires Flatten(cfg, info, rows).Ok? && Delim !in k
    ensures k in Flatten(cfg, info, rows).value <==>
      "server" in cfg.monitors && k in info && ParseInt(info[k]).Some?
    ensures k in Flatten(cfg, info, rows).value ==> Flatten(cfg, info, rows).value[k] == ParseInt(info[k]).value
  {
    FlattenRowsKeepsPlainKeys(cfg, if "server" in cfg.monitors then IntCells(info) else map[], rows, k);
  }

  /** A record that holds both names and no overflow never makes the call raise. */
  predicate WellFormedRow(row: Row)
  {
    "svname" in row.cells && "pxname" in row.cells && row.overflow == []
  }

  /** When every record is well formed, `get_stats` returns a dictionary. */
  lemma {:induction false} FlattenRowsOk(cfg: Config, acc: map<String, int>, rows: seq<Row>)
    requires forall j :: 0 <= j < |rows| ==> WellFormedRow(rows[j])
    ensures FlattenRows(cfg, acc, rows).Ok?
    decreases |rows|
  {
    if rows != [] {
      assert WellFormedRow(rows[0]);
      FlattenRowsOk(cfg, acc + RowOutcome(cfg, rows[0]).value, rows[1..]);
    }
  }

  /**
   * The integer cell of a kept record that comes last is in the
   * dictionary under its composite key, with its own value.
   */
  lemma LastRowStored(cfg: Config, acc: map<String, int>, rows: seq<Row>, row: Row, f: String)
    requires FlattenRows(cfg, acc, rows).Ok? && WellFormedRow(row)
    requires KeepRow(row.cells["svname"], row.cells["pxname"], cfg)
    requires f in row.cells && ParseInt(row.cells[f]).Some?
    ensures var key := CompositeKey(row.cells["svname"], row.cells["pxname"], f);
      && FlattenRows(cfg, acc, rows + [row]).Ok?
      && key in FlattenRows(cfg, acc, rows + [row]).value
      && FlattenRows(cfg, acc, rows + [row]).value[key] == ParseInt(row.cells[f]).value
  {
    FlattenRowsAppend(cfg, acc, rows, [row]);
    KeptRowKeys(cfg, row);
    assert [row][1..] == [];
  }

  /**
   * Splitting a composite key at its last dot gives back the column
   * whenever the column holds no dot, even when the entity or proxy name
   * holds some.
   */
  lemma CompositeKeySplit(svname: String, pxname: String, field: String)
    requires Delim !in field
    ensures RSplitLast(CompositeKey(svname, pxname, field), Delim) ==
      Some((Lower(svname) + [Delim] + Lower(pxname), field))
  {
    var head := Lower(svname) + [Delim] + Lower(pxname);
    assert CompositeKey(svname, pxname, field) == head + [Delim] + field;
    RSplitLastOfJoin(head, field, Delim);
  }
}
