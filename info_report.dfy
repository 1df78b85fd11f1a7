/**
 * `HAProxySocket.get_server_info`: the `show info` response, one
 * `Key: Value` pair per line, read into a dictionary.
 */
module InfoReport {
  import opened Wrappers
  import opened Text

  /**
   * `key, val = line.split(':')` followed by `strip()` of both names: a
   * line yields an entry exactly when it holds one colon; with none or
   * with several the unpacking raises and the line is skipped.
   */
  function InfoEntry(line: String): (e: Option<(String, String)>)
    ensures e.Some? <==> Count(line, ':') == 1
  {
    var parts := Split(line, ':');
    if |parts| == 2 then Some((Trim(parts[0]), Trim(parts[1]))) else None
  }

  /** A line `key:value` with no colon on either side yields the two trimmed sides. */
  lemma EntryOfPair(key: String, value: String)
    requires ':' !in key && ':' !in value
    ensures InfoEntry(key + [':'] + value) == Some((Trim(key), Trim(value)))
  {
    SplitJoin([key, value], ':');
    assert Join([key, value], ':') == key + [':'] + value;
  }

  /** True when `line` is an entry for `key`. */
  predicate Defines(line: String, key: String)
  {
    InfoEntry(line).Some? && InfoEntry(line).value.0 == key
  }

  /** The entry, if any, that each line yields, in order. */
  function Entries(lines: seq<String>): (es: seq<Option<(String, String)>>)
    ensures |es| == |lines| && forall i :: 0 <= i < |lines| ==> es[i] == InfoEntry(lines[i])
  {
    seq(|lines|, i requires 0 <= i < |lines| => InfoEntry(lines[i]))
  }

  /** Entries stored in order into a dictionary: a later entry for a key overwrites an earlier one. */
  function Store(es: seq<Option<(String, String)>>): map<String, String>
    decreases |es|
  {
    if es == [] then map[]
    else
      var m := Store(es[..|es| - 1]);
      match es[|es| - 1]
      case None => m
      case Some((k, v)) => m[k := v]
  }

  /** The dictionary `get_server_info` builds from the lines of the response. */
  function InfoOf(lines: seq<String>): map<String, String>
  {
    Store(Entries(lines))
  }

  /** A key is stored iff some entry has it. */
  lemma {:induction false} StoreKeys(es: seq<Option<(String, String)>>, key: String)
    ensures key in Store(es) <==> exists i :: 0 <= i < |es| && es[i].Some? && es[i].value.0 == key
    decreases |es|
  {
    if es != [] {
      var n := |es| - 1;
      var init := es[..n];
      StoreKeys(init, key);
      if es[n].Some? && es[n].value.0 == key {
        assert key in Store(es);
      } else {
        assert key in Store(es) <==> key in Store(init);
        if key in Store(init) {
          var i :| 0 <= i < |init| && init[i].Some? && init[i].value.0 == key;
          assert es[i] == init[i];
        }
        if exists i :: 0 <= i < |es| && es[i].Some? && es[i].value.0 == key {
          var i :| 0 <= i < |es| && es[i].Some? && es[i].value.0 == key;
          assert init[i] == es[i];
        }
      }
    }
  }

  /** The value stored under a key is that of the last entry for it. */
  lemma {:induction false} StoreLastWins(es: seq<Option<(String, String)>>, key: String, i: nat)
    requires i < |es| && es[i].Some? && es[i].value.0 == key
    requires forall j :: i < j < |es| ==> !(es[j].Some? && es[j].value.0 == key)
    ensures key in Store(es) && Store(es)[key] == es[i].value.1
    decreases |es|
  {
    if i < |es| - 1 {
      var init := es[..|es| - 1];
      assert init[i] == es[i];
      StoreLastWins(init, key, i);
    }
  }

  /** A key is in the dictionary iff some line defines it. */
  lemma InfoOfKeys(lines: seq<String>, key: String)
    ensures key in InfoOf(lines) <==> exists i :: 0 <= i < |lines| && Defines(lines[i], key)
  {
    var es := Entries(lines);
    StoreKeys(es, key);
    if key in InfoOf(lines) {
      var i :| 0 <= i < |es| && es[i].Some? && es[i].value.0 == key;
      assert Defines(lines[i], key);
    }
    if exists i :: 0 <= i < |lines| && Defines(lines[i], key) {
      var i :| 0 <= i < |lines| && Defines(lines[i], key);
      assert es[i].Some? && es[i].value.0 == key;
    }
  }

  /** The value stored under a key is that of the last line defining it. */
  lemma InfoOfLastWins(lines: seq<String>, key: String, i: nat)
    requires i < |lines| && Defines(lines[i], key)
    requires forall j :: i < j < |lines| ==> !Defines(lines[j], key)
    ensures key in InfoOf(lines) && InfoOf(lines)[key] == InfoEntry(lines[i]).value.1
  {
    var es := Entries(lines);
    forall j | i < j < |es| ensures !(es[j].Some? && es[j].value.0 == key) {
      assert !Defines(lines[j], key);
    }
    StoreLastWins(es, key, i);
  }

  /** A line with no colon, or with two or more, contributes nothing. */
  lemma {:induction false} MalformedLineIgnored(lines: seq<String>, line: String)
    requires Count(line, ':') != 1
    ensures InfoOf(lines + [line]) == InfoOf(lines)
  {
    var es := Entries(lines + [line]);
    assert es[..|lines|] == Entries(lines);
    assert es[|lines|] == InfoEntry(line) == None;
  }

  /**
   * `get_server_info` on a response text: every line of the response is
   * split at its colon and stored, trimmed, under its key.
   */
  method GetServerInfo(output: String) returns (result: map<String, String>)
    ensures result == InfoOf(SplitLines(output))
  {
    var lines := SplitLines(output);
    ghost var es := Entries(lines);
    result := map[];
    for i := 0 to |lines|
      invariant result == Store(es[..i])
    {
      assert es[..i + 1][..i] == es[..i];
      assert es[i] == InfoEntry(lines[i]);
      var parts := Split(lines[i], ':');
      if |parts| == 2 {
        result := result[Trim(parts[0]) := Trim(parts[1])];
      }
    }
    assert es[..|lines|] == es;
  }
}
