/**
 * `configure_callback`: the plugin's `<Module haproxy>` block, handed over
 * by collectd as a list of key/value nodes, normalised into the settings
 * the collector reads. The module-level globals of the plugin become one
 * `Config` value.
 */
module Configuration {
  import opened Wrappers
  import opened Text

  /** A configuration value as collectd passes it: a string, a number or a boolean. */
  datatype Value = Str(s: String) | Number(n: real) | Bool(b: bool)

  /** A configuration node: its key and its first value (`node.values[0]`). */
  datatype Node = Node(key: String, value: Value)

  /** The plugin settings after configuration. */
  datatype Config = Config(monitors: seq<String>, ignore: seq<Value>, socket: Value, verbose: bool)

  /**
   * `p.lower()` raised on a `ProxyMonitor` value that is not a string;
   * `left` is what the globals hold when it does: everything the node loop
   * set, with the monitor list still raw.
   */
  datatype ConfigError = MonitorNotString(value: Value, left: Settings)

  const DefaultSocket: String := "/var/lib/haproxy/stats"

  const DefaultMonitors: seq<String> := ["server", "frontend", "backend"]

  /** Strings as configuration values. */
  function Strs(ss: seq<String>): (vs: seq<Value>)
    ensures |vs| == |ss| && forall j :: 0 <= j < |ss| ==> vs[j] == Str(ss[j])
  {
    seq(|ss|, j requires 0 <= j < |ss| => Str(ss[j]))
  }

  /** Python's `bool(v)`: false exactly for the empty string, zero and `False`. */
  predicate Truthy(v: Value)
  {
    match v
    case Str(s) => s != []
    case Number(n) => n != 0.0
    case Bool(b) => b
  }

  /** The globals as the loop over the nodes leaves them, before the monitors are normalised. */
  datatype Settings = Settings(monitors: seq<Value>, ignore: seq<Value>, socket: Value, verbose: bool)

  /** The globals as `configure_callback` resets them before reading the nodes. */
  const Initial: Settings := Settings([], [], Str(DefaultSocket), false)

  /** One node applied to the settings; an unknown key only logs a warning. */
  function Apply(st: Settings, node: Node): Settings
  {
    if node.key == "ProxyMonitor" then st.(monitors := st.monitors + [node.value])
    else if node.key == "ProxyIgnore" then st.(ignore := st.ignore + [node.value])
    else if node.key == "Socket" then st.(socket := node.value)
    else if node.key == "Verbose" then st.(verbose := Truthy(node.value))
    else st
  }

  /** The nodes applied in order. */
  function ApplyAll(st: Settings, nodes: seq<Node>): Settings
    decreases |nodes|
  {
    if nodes == [] then st else ApplyAll(Apply(st, nodes[0]), nodes[1..])
  }

  /** `[p.lower() for p in monitors]`, which raises on the first value that is not a string. */
  function LowerAll(vs: seq<Value>): (r: Result<seq<String>, Value>)
    ensures r.Ok? <==> forall j :: 0 <= j < |vs| ==> vs[j].Str?
    ensures r.Ok? ==> |r.value| == |vs| && forall j :: 0 <= j < |vs| ==> r.value[j] == Lower(vs[j].s)
    ensures r.Err? ==> r.error in vs && !r.error.Str?
    decreases |vs|
  {
    if vs == [] then Ok([])
    else if !vs[0].Str? then Err(vs[0])
    else
      match LowerAll(vs[1..])
      case Err(e) => Err(e)
      case Ok(rest) => Ok([Lower(vs[0].s)] + rest)
  }

  /** The settings `configure_callback` leaves for a list of nodes. */
  function ConfigOf(nodes: seq<Node>): Result<Config, ConfigError>
  {
    var st := ApplyAll(Initial, nodes);
    var monitors := if st.monitors == [] then Strs(DefaultMonitors) else st.monitors;
    match LowerAll(monitors)
    case Err(v) => Err(MonitorNotString(v, st))
    case Ok(lowered) => Ok(Config(lowered, st.ignore, st.socket, st.verbose))
  }

  /** The values of the nodes with a given key, in order. */
  function ValuesOf(nodes: seq<Node>, key: String): seq<Value>
    decreases |nodes|
  {
    if nodes == [] then []
    else (if nodes[0].key == key then [nodes[0].value] else []) + ValuesOf(nodes[1..], key)
  }

  /** The value of the last node with a given key, if there is one. */
  function LastValue(nodes: seq<Node>, key: String): Option<Value>
    decreases |nodes|
  {
    if nodes == [] then None
    else if nodes[|nodes| - 1].key == key then Some(nodes[|nodes| - 1].value)
    else LastValue(nodes[..|nodes| - 1], key)
  }

  /** Applying the nodes appends every `ProxyMonitor` and every `ProxyIgnore` value, in order. */
  lemma {:induction false} ApplyAllLists(st: Settings, nodes: seq<Node>)
    ensures ApplyAll(st, nodes).monitors == st.monitors + ValuesOf(nodes, "ProxyMonitor")
    ensures ApplyAll(st, nodes).ignore == st.ignore + ValuesOf(nodes, "ProxyIgnore")
    decreases |nodes|
  {
    if nodes != [] {
      var next := Apply(st, nodes[0]);
      ApplyAllLists(next, nodes[1..]);
      var h := if nodes[0].key == "ProxyMonitor" then [nodes[0].value] else [];
      var g := if nodes[0].key == "ProxyIgnore" then [nodes[0].value] else [];
      assert next.monitors == st.monitors + h;
      assert next.ignore == st.ignore + g;
      assert ValuesOf(nodes, "ProxyMonitor") == h + ValuesOf(nodes[1..], "ProxyMonitor");
      assert ValuesOf(nodes, "ProxyIgnore") == g + ValuesOf(nodes[1..], "ProxyIgnore");
      assert (st.monitors + h) + ValuesOf(nodes[1..], "ProxyMonitor") == st.monitors + (h + ValuesOf(nodes[1..], "ProxyMonitor"));
      assert (st.ignore + g) + ValuesOf(nodes[1..], "ProxyIgnore") == st.ignore + (g + ValuesOf(nodes[1..], "ProxyIgnore"));
    } else {
      assert st.monitors + [] == st.monitors && st.ignore + [] == st.ignore;
    }
  }

  /** Applying the nodes keeps the last `Socket` value and the truth of the last `Verbose` value. */
  lemma {:induction false} ApplyAllLast(st: Settings, nodes: seq<Node>)
    ensures ApplyAll(st, nodes).socket ==
      (match LastValue(nodes, "Socket") case Some(v) => v case None => st.socket)
    ensures ApplyAll(st, nodes).verbose ==
      (match LastValue(nodes, "Verbose") case Some(v) => Truthy(v) case None => st.verbose)
    decreases |nodes|
  {
    if nodes != [] {
      ApplyAllLast(Apply(st, nodes[0]), nodes[1..]);
      LastValueCons(nodes, "Socket");
      LastValueCons(nodes, "Verbose");
    }
  }

  /** The last node with a key is in the tail, unless only the head has it. */
  lemma {:induction false} LastValueCons(nodes: seq<Node>, key: String)
    requires nodes != []
    ensures LastValue(nodes, key) ==
      (match LastValue(nodes[1..], key)
       case Some(v) => Some(v)
       case None => if nodes[0].key == key then Some(nodes[0].value) else None)
    decreases |nodes|
  {
    if |nodes| > 1 {
      var init := nodes[..|nodes| - 1];
      assert init[1..] == nodes[1..][..|nodes| - 2];
      LastValueCons(init, key);
    }
  }

  /** Without a node for a key there is no last value for it. */
  lemma {:induction false} LastValueAbsent(nodes: seq<Node>, key: String)
    requires forall j :: 0 <= j < |nodes| ==> nodes[j].key != key
    ensures LastValue(nodes, key) == None
    decreases |nodes|
  {
    if nodes != [] {
      LastValueAbsent(nodes[..|nodes| - 1], key);
    }
  }

  /** The default classes are already lower case. */
  lemma DefaultMonitorsLowered()
    ensures LowerAll(Strs(DefaultMonitors)) == Ok(DefaultMonitors)
  {
    var r := LowerAll(Strs(DefaultMonitors));
    assert r.Ok? && |r.value| == 3;
    forall j | 0 <= j < 3 ensures r.value[j] == DefaultMonitors[j] {
      LowerOfLower(DefaultMonitors[j]);
    }
    assert r.value == DefaultMonitors;
  }

  /** Configuration fails exactly when some `ProxyMonitor` value is not a string. */
  lemma ConfigOfFails(nodes: seq<Node>)
    ensures var pm := ValuesOf(nodes, "ProxyMonitor");
      ConfigOf(nodes).Ok? <==> forall j :: 0 <= j < |pm| ==> pm[j].Str?
  {
    ApplyAllLists(Initial, nodes);
    assert ApplyAll(Initial, nodes).monitors == ValuesOf(nodes, "ProxyMonitor");
    DefaultMonitorsLowered();
  }

  /**
   * After configuration every monitor is lower case; the monitors are the
   * three default classes when no `ProxyMonitor` node was given and the
   * lower-cased `ProxyMonitor` values, in order, when some were.
   */
  lemma ConfigOfMonitors(nodes: seq<Node>)
    requires ConfigOf(nodes).Ok?
    ensures var c := ConfigOf(nodes).value;
      forall j :: 0 <= j < |c.monitors| ==> IsLower(c.monitors[j])
    ensures var c := ConfigOf(nodes).value; var pm := ValuesOf(nodes, "ProxyMonitor");
      && (pm == [] ==> c.monitors == DefaultMonitors)
      && (pm != [] ==> |c.monitors| == |pm| && forall j :: 0 <= j < |pm| ==> pm[j].Str? && c.monitors[j] == Lower(pm[j].s))
  {
    var pm := ValuesOf(nodes, "ProxyMonitor");
    ApplyAllLists(Initial, nodes);
    assert ApplyAll(Initial, nodes).monitors == pm;
    var c := ConfigOf(nodes).value;
    if pm == [] {
      DefaultMonitorsLowered();
      assert c.monitors == DefaultMonitors;
    } else {
      assert LowerAll(pm) == Ok(c.monitors);
    }
  }

  /**
   * The converse of the defaulting does not hold: `ProxyMonitor` nodes that
   * name the three classes, in any case, also leave exactly the default list.
   */
  lemma ExplicitDefaultMonitors()
    ensures ValuesOf(DefaultsByName, "ProxyMonitor") != []
    ensures ConfigOf(DefaultsByName) == Ok(Config(DefaultMonitors, [], Str(DefaultSocket), false))
  {
    var nodes := DefaultsByName;
    DefaultsByNameValues();
    ConfigOfFails(nodes);
    ConfigOfMonitors(nodes);
    ConfigOfOthers(nodes);
    var c := ConfigOf(nodes).value;
    LowerServer();
    DefaultMonitorsLowered();
    assert Strs(DefaultMonitors)[1].s == "frontend" && Strs(DefaultMonitors)[2].s == "backend";
    assert c.monitors == DefaultMonitors;
  }

  /** `ProxyMonitor` nodes naming the three default classes, the first one capitalised. */
  const DefaultsByName: seq<Node> :=
    [Node("ProxyMonitor", Str("Server")), Node("ProxyMonitor", Str("frontend")), Node("ProxyMonitor", Str("backend"))]

  lemma DefaultsByNameValues()
    ensures ValuesOf(DefaultsByName, "ProxyMonitor") == [Str("Server"), Str("frontend"), Str("backend")]
    ensures ValuesOf(DefaultsByName, "ProxyIgnore") == []
    ensures LastValue(DefaultsByName, "Socket") == None && LastValue(DefaultsByName, "Verbose") == None
  {
    var nodes := DefaultsByName;
    assert ValuesOf(nodes, "ProxyMonitor") == [Str("Server"), Str("frontend"), Str("backend")];
    assert ValuesOf(nodes, "ProxyIgnore") == [];
    LastValueAbsent(nodes, "Socket");
    LastValueAbsent(nodes, "Verbose");
  }

  lemma LowerServer()
    ensures Lower("Server") == "server"
  {
    assert LowerChar('S') == 's';
    assert forall i :: 1 <= i < 6 ==> Lower("Server")[i] == "server"[i];
  }

  /**
   * The ignore list is the `ProxyIgnore` values verbatim and in order, the
   * socket the value of the last `Socket` node (the default without one),
   * the verbosity the truth of the last `Verbose` value.
   */
  lemma ConfigOfOthers(nodes: seq<Node>)
    requires ConfigOf(nodes).Ok?
    ensures var c := ConfigOf(nodes).value;
      && c.ignore == ValuesOf(nodes, "ProxyIgnore")
      && c.socket == (match LastValue(nodes, "Socket") case Some(v) => v case None => Str(DefaultSocket))
      && c.verbose == (match LastValue(nodes, "Verbose") case Some(v) => Truthy(v) case None => false)
  {
    ApplyAllLists(Initial, nodes);
    ApplyAllLast(Initial, nodes);
  }

  /**
   * When configuration fails, the offending value is a non-string
   * `ProxyMonitor` value, and the globals keep the raw `ProxyMonitor`
   * values, the `ProxyIgnore` values, the last socket and the last
   * verbosity, just as a successful run would have set them.
   */
  lemma ConfigOfError(nodes: seq<Node>)
    requires ConfigOf(nodes).Err?
    ensures var e := ConfigOf(nodes).error; var pm := ValuesOf(nodes, "ProxyMonitor");
      && e.value in pm && !e.value.Str?
      && e.left.monitors == pm
      && e.left.ignore == ValuesOf(nodes, "ProxyIgnore")
      && e.left.socket == (match LastValue(nodes, "Socket") case Some(v) => v case None => Str(DefaultSocket))
      && e.left.verbose == (match LastValue(nodes, "Verbose") case Some(v) => Truthy(v) case None => false)
  {
    ApplyAllLists(Initial, nodes);
    ApplyAllLast(Initial, nodes);
    DefaultMonitorsLowered();
  }

  /**
   * `configure_callback` itself: the node loop updates the globals in place,
   * then the monitor list is defaulted and lower-cased.
   */
  method Configure(nodes: seq<Node>) returns (r: Result<Config, ConfigError>)
    ensures r == ConfigOf(nodes)
  {
    var monitors: seq<Value> := [];
    var ignore: seq<Value> := [];
    var socket := Str(DefaultSocket);
    var verbose := false;
    assert nodes[0..] == nodes;
    for i := 0 to |nodes|
      invariant ApplyAll(Initial, nodes) == ApplyAll(Settings(monitors, ignore, socket, verbose), nodes[i..])
    {
      var node := nodes[i];
      assert nodes[i..][1..] == nodes[i + 1..];
      if node.key == "ProxyMonitor" {
        monitors := monitors + [node.value];
      } else if node.key == "ProxyIgnore" {
        ignore := ignore + [node.value];
      } else if node.key == "Socket" {
        socket := node.value;
      } else if node.key == "Verbose" {
        verbose := Truthy(node.value);
      }
    }
    if monitors == [] {
      monitors := Strs(DefaultMonitors);
    }
    assert nodes[|nodes|..] == [];
    match LowerAll(monitors) {
      case Err(v) => r := Err(MonitorNotString(v, Settings(monitors, ignore, socket, verbose)));
      case Ok(lowered) => r := Ok(Config(lowered, ignore, socket, verbose));
    }
  }
}
