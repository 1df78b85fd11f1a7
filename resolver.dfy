/**
 * The loop of `read_callback`: every key of the flattened dictionary is
 * split at its last delimiter, the part after it is looked up in the
 * metric table, and a value is dispatched under the table's name and kind
 * with the part before it as prefix; keys whose part is not in the table
 * are dropped.
 *
 * The source tests `value in METRIC_TYPES` before splitting. The value is
 * an integer and the table's keys are strings, so that test never holds
 * and every key is split; a key without a delimiter keeps the empty prefix,
 * and joining the empty prefix to the name puts a delimiter in front of it.
 */
module Resolver {
  import opened Wrappers
  import opened Text
  import opened MetricTypes
  import opened Configuration
  import opened Collector

  /** One dispatched value: its type instance, its collectd type and the number. */
  datatype Sample = Sample(instance: String, kind: Kind, value: int)

  /** `key.rsplit('.', 1)` when it unpacks, otherwise the empty prefix and the whole key. */
  function KeyParts(key: String): (parts: (String, String))
    ensures Delim in key ==> parts.0 + [Delim] + parts.1 == key && Delim !in parts.1
    ensures Delim !in key ==> parts == ([], key)
  {
    match RSplitLast(key, Delim)
    case Some(split) => split
    case None => ([], key)
  }

  /** What `read_callback` dispatches for one dictionary entry, if anything. */
  function Resolve(key: String, value: int): Option<Sample>
  {
    var (prefix, root) := KeyParts(key);
    match Lookup(root)
    case None => None
    case Some(t) => Some(Sample(prefix + [Delim] + t.name, t.kind, value))
  }

  /** A key without a delimiter whose name is in the table goes out with a leading delimiter. */
  lemma ResolveBare(key: String, value: int)
    requires Delim !in key && key in Table
    ensures Resolve(key, value) == Some(Sample([Delim] + Table[key].name, Table[key].kind, value))
  {
    var t := Table[key];
    assert Lookup(key) == Some(t);
    assert KeyParts(key) == ([], key);
    var empty: String := [];
    assert empty + [Delim] == [Delim];
  }

  /**
   * A record's composite key whose column is in the table goes out under
   * the lower-cased entity class and proxy name followed by the table's
   * name, whatever delimiters those names contain.
   */
  lemma ResolveComposite(svname: String, pxname: String, field: String, value: int)
    requires field in Table
    ensures Resolve(CompositeKey(svname, pxname, field), value) ==
      Some(Sample(Lower(svname) + [Delim] + Lower(pxname) + [Delim] + Table[field].name, Table[field].kind, value))
  {
    TableKeysDotFree(field);
    CompositeKeySplit(svname, pxname, field);
  }

  /** A record's composite key whose column is not in the table is never dispatched. */
  lemma ResolveUnknownField(svname: String, pxname: String, field: String, value: int)
    requires Delim !in field && field !in Table
    ensures Resolve(CompositeKey(svname, pxname, field), value) == None
  {
    CompositeKeySplit(svname, pxname, field);
  }

  /** The keys of a dictionary whose entries are dispatched. */
  function Resolving(stats: map<String, int>): (keys: set<String>)
    ensures keys <= stats.Keys
    ensures forall k :: k in keys <==> k in stats && Resolve(k, stats[k]).Some?
  {
    set k | k in stats && Resolve(k, stats[k]).Some?
  }

  /**
   * The dispatch loop of `read_callback`. It returns the dispatched values
   * in the order of the loop, and alongside them (as a proof device) the
   * keys they came from.
   */
  method Dispatch(stats: map<String, int>) returns (dispatched: seq<Sample>, ghost keys: seq<String>)
    ensures stats == map[] ==> dispatched == []
    ensures |keys| == |dispatched|
    ensures forall i, j :: 0 <= i < j < |keys| ==> keys[i] != keys[j]
    ensures forall k :: k in keys <==> k in Resolving(stats)
    ensures forall i :: 0 <= i < |keys| ==> keys[i] in stats && Resolve(keys[i], stats[keys[i]]) == Some(dispatched[i])
  {
    dispatched, keys := [], [];
    if stats == map[] {
      return;
    }
    var todo := stats.Keys;
    while todo != {}
      invariant todo <= stats.Keys
      invariant |keys| == |dispatched|
      invariant forall i, j :: 0 <= i < j < |keys| ==> keys[i] != keys[j]
      invariant forall k :: k in keys <==> k in Resolving(stats) && k !in todo
      invariant forall i :: 0 <= i < |keys| ==> keys[i] in stats && Resolve(keys[i], stats[keys[i]]) == Some(dispatched[i])
      decreases |todo|
    {
      var key :| key in todo;
      var value := stats[key];
      var prefix, root := [], key;
      match RSplitLast(key, Delim) {
        case Some((p, r)) => prefix, root := p, r;
        case None =>
      }
      assert (prefix, root) == KeyParts(key);
      match Lookup(root) {
        case None =>
        case Some(t) =>
          dispatched := dispatched + [Sample(prefix + [Delim] + t.name, t.kind, value)];
          keys := keys + [key];
      }
      todo := todo - {key};
    }
  }

  /** Each dispatching key is dispatched exactly once: as many values as such keys. */
  lemma DispatchCount(stats: map<String, int>, keys: seq<String>)
    requires forall i, j :: 0 <= i < j < |keys| ==> keys[i] != keys[j]
    requires forall k :: k in keys <==> k in Resolving(stats)
    ensures |keys| == |Resolving(stats)|
  {
    DistinctCard(keys);
    assert (set k | k in keys) == Resolving(stats);
  }

  /** A sequence without repetitions has as many elements as its set. */
  lemma {:induction false} DistinctCard(keys: seq<String>)
    requires forall i, j :: 0 <= i < j < |keys| ==> keys[i] != keys[j]
    ensures |set k | k in keys| == |keys|
    decreases |keys|
  {
    if keys != [] {
      var init := keys[..|keys| - 1];
      var last := keys[|keys| - 1];
      DistinctCard(init);
      assert (set k | k in keys) == (set k | k in init) + {last};
      assert last !in init by {
        forall i | 0 <= i < |init| ensures init[i] != last {
          assert init[i] == keys[i];
        }
      }
    }
  }

  /**
   * `read_callback`: a call of `get_stats` that raises makes the callback
   * raise; otherwise every entry of the dictionary whose key resolves is
   * dispatched once, and nothing else is. A socket failure dispatches
   * nothing.
   */
  method ReadCallback(cfg: Config, infoReply: Option<String>, statReply: Option<String>)
    returns (r: Result<seq<Sample>, Fault>, ghost keys: seq<String>)
    ensures GetStatsOf(cfg, infoReply, statReply).Err? <==> r.Err?
    ensures r.Err? ==> r.error == GetStatsOf(cfg, infoReply, statReply).error
    ensures infoReply.None? || statReply.None? ==> r == Ok([])
    ensures r.Ok? ==>
      var stats := GetStatsOf(cfg, infoReply, statReply).value;
      && |keys| == |r.value| == |Resolving(stats)|
      && (forall k :: k in keys <==> k in Resolving(stats))
      && (forall i :: 0 <= i < |keys| ==> keys[i] in stats && Resolve(keys[i], stats[keys[i]]) == Some(r.value[i]))
  {
    var info := GetStats(cfg, infoReply, statReply);
    keys := [];
    if info.Err? {
      return Err(info.error), keys;
    }
    var dispatched;
    dispatched, keys := Dispatch(info.value);
    DispatchCount(info.value, keys);
    r := Ok(dispatched);
  }
}
