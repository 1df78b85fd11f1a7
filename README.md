# haproxy collectd plugin — a Dafny model

The plugin `haproxy.py` runs inside collectd's Python plugin host. On every
read cycle it asks HAProxy's control socket for `show info` (a `Key: Value`
block) and `show stat` (a CSV table with one record per frontend, backend and
server). It keeps the records whose entity class or proxy is monitored and
whose proxy is not ignored. It flattens every integer value into one
dictionary under a composite `svname.pxname.field` key. Finally it looks up
the part of each key after the last dot in a static table, `METRIC_TYPES`,
and dispatches a value under the table's canonical name and collectd type.

The model covers these pieces, one module per concern:

- `Text`: the Python string operations the plugin relies on: `split`, `rsplit(sep, 1)`, `strip`/`lstrip`, `lower`, `splitlines`, and `int()` on decimal text.
- `MetricTypes`: the `METRIC_TYPES` table and its lookup.
- `Transport`: the newline rule of `communicate` and its receive loop over a given sequence of `recv` results.
- `InfoReport`: `get_server_info`. This is a method with a loop, proved against a specification function.
- `StatsReport`: the text part of `get_server_stats`. This covers sanitising the response and reading it the way `csv.DictReader` reads unquoted data.
- `Configuration`: `configure_callback`. This is a method with a loop, proved against a specification function. The module globals become a `Config` value.
- `Collector`: `get_stats`. These are methods with loops that update the dictionary in place, proved against the function `GetStatsOf`.
- `Resolver`: the dispatch loop of `read_callback`.

Some behaviour of the code is easy to misread, and the model keeps it as written:

- **Info lines.** A `show info` line is kept only when it holds exactly one colon, because `line.split(':')` must unpack into two parts. A line with a second colon is dropped, not split at the first one.
- **Commas.** Every stats line has commas stripped from both ends (`strip(',')`), leading ones included.
- **Records with the wrong number of fields.** These are not dropped.
  - A short record lacks the cells it does not reach.
  - A long record keeps its extra fields. If such a record passes the filter, `get_stats` raises (the join on the `None` key). The model returns `Fault.OverflowFields` for this.
- **Every key is split.** The test on line 159 is `value in METRIC_TYPES`, and `value` is an integer, so the test never holds and every key is split at its last dot.
  - A key without a dot keeps the empty prefix.
  - Joining `['', name]` gives a leading dot. `Uptime_sec` is therefore dispatched as `.uptime_seconds`, not `uptime_seconds`.

## Model

| member | source | states |
|---|---|---|
| MetricTypes.TableKeysDotFree | haproxy.py:14-43 | no raw field name of the table holds a dot |
| Transport.CommandLine | haproxy.py:63 | the line sent always ends with a newline, starts with the command, is at most one character longer, and is the command itself when that already ends with a newline |
| Transport.CommandLineCases | haproxy.py:63 | the command is sent unchanged iff it ends with a newline; otherwise exactly one newline is appended |
| Transport.ChunksBeforeClose | haproxy.py:67-70 | counts the reads before the first empty one: every earlier chunk is non-empty and the chunk at that position is empty |
| Transport.Communicate | haproxy.py:60-72 | sends the newline-terminated command; the response is the concatenation, in order, of every chunk received before the first empty read |
| Text.JoinSplit | haproxy.py:79 | no part of `split(sep)` holds the separator, and joining the parts with it gives back the string |
| Text.SplitJoin | haproxy.py:79 | splitting a join of separator-free parts gives back the parts |
| Text.RSplitLast | haproxy.py:161 | `rsplit(sep, 1)` fails iff the separator is absent; otherwise head, separator and tail rebuild the string and the tail holds no separator |
| Text.RSplitLastOfJoin | haproxy.py:161 | splitting `head + sep + tail` at the last separator recovers head and tail when the tail holds no separator |
| Text.SplitLinesIsSplit | haproxy.py:77 | with only newline line breaks, `splitlines()` is a split at newlines after dropping one final newline |
| Text.Lower | haproxy.py:113 | lower-casing keeps the length, maps each ASCII capital to the small letter 32 code points above it, and changes no other character |
| Text.LowerOfLower | haproxy.py:146 | a string without capitals is its own lower case |
| Text.ParseShowInt | haproxy.py:108 | `int()` reads back the decimal text of every integer |
| Text.ParseInt | haproxy.py:108 | `int()` on text: surrounding whitespace is dropped, an optional sign may be followed by whitespace, then one or more ASCII digits must follow; anything else is `None` (the `ValueError`) |
| Text.ParseSigned | haproxy.py:108 | text that trims to a sign and then, after optional whitespace, digits reads as the digits' value with that sign, so `int('- 5') == -5` |
| Text.ParseIntIgnoresPadding | haproxy.py:108 | `int()` ignores whitespace before and after the text, in any amounts, independently on each side |
| Text.StripInfix | haproxy.py:82 | `strip` removes only characters of the given set, from both ends, and returns the slice between them |
| InfoReport.InfoEntry | haproxy.py:78-82 | a line yields an entry iff it holds exactly one colon |
| InfoReport.EntryOfPair | haproxy.py:79-82 | a line `key:value` with colon-free sides yields the stripped key and the stripped value |
| InfoReport.InfoOfKeys | haproxy.py:77-82 | a key is in the dictionary iff some line has exactly one colon and that key, stripped, on its left |
| InfoReport.InfoOfLastWins | haproxy.py:77-82 | the value stored under a key comes from the last line that defines the key |
| InfoReport.MalformedLineIgnored | haproxy.py:78-81 | a line with no colon, or with two or more, leaves the dictionary unchanged |
| InfoReport.GetServerInfo | haproxy.py:74-83 | the loop over the response's lines builds exactly the dictionary described by the three lemmas above |
| StatsReport.Sanitise | haproxy.py:88-89 | drops leading `#` and space characters, trims the whitespace, splits into lines and strips commas from both ends of each line |
| StatsReport.SanitisedLines | haproxy.py:88-89 | sanitising gives one line per line of the trimmed response, none starting or ending with a comma and none holding a line break |
| StatsReport.Fields | haproxy.py:90 | an empty line has no fields; any other line has one more field than it has commas |
| StatsReport.NonEmpty | haproxy.py:90-91 | keeps exactly the non-empty lines, each as many times as it occurs, and nothing else |
| StatsReport.MakeRow | haproxy.py:90-91 | one `DictReader` record: the header's columns paired with the fields; a short line lacks the columns it does not reach, a long line keeps its extra fields as overflow |
| StatsReport.Tabulate | haproxy.py:90-91 | the first line is the header, every later non-empty line becomes one record, in order |
| StatsReport.RowOfFullLine | haproxy.py:90-91 | with a header free of duplicates, a line with one field per column gives a record whose columns are the header's, each holding its own field, with no overflow |
| StatsReport.RowsOfNonEmpty | haproxy.py:90-91 | one record per non-empty line after the header, in order |
| StatsReport.TabulateWellFormed | haproxy.py:85-92 | for a well-formed report, there are as many records as non-empty data lines, and every record's column set is the header's |
| Configuration.LowerAll | haproxy.py:146 | lower-casing the monitors succeeds iff every value is a string; each result is the lower case of its value, and a failure names a non-string value from the list |
| Configuration.Truthy | haproxy.py:140 | Python's `bool()` of a configuration value: false exactly for the empty string, zero and `False` |
| Configuration.ApplyAllLists | haproxy.py:132-136 | the node loop appends every `ProxyMonitor` and every `ProxyIgnore` value, in order |
| Configuration.ApplyAllLast | haproxy.py:137-140 | the node loop keeps the last `Socket` value and the truth value of the last `Verbose` value |
| Configuration.LastValueAbsent | haproxy.py:137-140 | with no node for a key, there is no last value for it |
| Configuration.DefaultMonitorsLowered | haproxy.py:144-146 | the default classes survive lower-casing unchanged |
| Configuration.ConfigOfFails | haproxy.py:132-146 | configuration fails iff some `ProxyMonitor` value is not a string |
| Configuration.ConfigOfMonitors | haproxy.py:127-146 | every monitor is lower case; the monitors are the defaults without `ProxyMonitor` nodes, and otherwise the lower-cased `ProxyMonitor` values in order |
| Configuration.ExplicitDefaultMonitors | haproxy.py:144-146 | `ProxyMonitor` nodes `Server`, `frontend`, `backend` also yield exactly the default list, so the defaults do not prove that no node was given |
| Configuration.ConfigOfOthers | haproxy.py:127-140 | the ignore list is the `ProxyIgnore` values verbatim and in order; the socket is the last `Socket` value (default without one); verbosity is the truth of the last `Verbose` value (false without one) |
| Configuration.ConfigOfError | haproxy.py:127-146 | on failure the offending value is a non-string `ProxyMonitor` value, and the globals keep the raw `ProxyMonitor` list, the `ProxyIgnore` values, the last socket and the last verbosity |
| Configuration.Configure | haproxy.py:125-146 | the loop over the nodes and the normalisation that follows produce the configuration the lemmas above describe |
| Collector.Prefixed | haproxy.py:118 | a key is stored under the prefix iff it was present without it, with the same value, and every stored key starts with the prefix |
| Collector.StoreInts | haproxy.py:105-110 | the loop adds to the dictionary exactly the integer-valued cells, under their prefixed keys |
| Collector.KeepRow | haproxy.py:113-116 | a record is kept iff its lower-cased entity class or proxy name is monitored and its proxy name, exactly as received, is not ignored |
| Collector.RowOutcome | haproxy.py:113-122 | one record: a missing `svname`, or a missing `pxname` where the filter needs it, raises; a record the filter rejects adds nothing; a kept record with extra fields raises; otherwise its integer cells are added under `svname.pxname.` in lower case |
| Collector.StoreRow | haproxy.py:113-122 | one record adds what the record filter and flattening prescribe, or raises the error the source raises |
| Collector.StoreRows | haproxy.py:112-122 | the loop over the records produces the flattened dictionary, stopping at the first error |
| Collector.GetStats | haproxy.py:94-123 | a socket failure gives the empty dictionary; otherwise the result is the flattening of the parsed info and stats reports |
| Collector.FlattenRowsAppend | haproxy.py:112-122 | records are processed in order: the rest is processed on the result of a prefix |
| Collector.NeutralRowSkipped | haproxy.py:112-122 | a record that adds nothing can be removed from the report without changing the result |
| Collector.UnmonitoredRowSkipped | haproxy.py:113-114 | a record whose lower-cased entity class and proxy name are both unmonitored changes nothing, whatever the ignore list holds |
| Collector.IgnoredRowSkipped | haproxy.py:115-116 | a record whose proxy name, in exact case, is ignored changes nothing, even when its class is monitored |
| Collector.KeptRowKeys | haproxy.py:117-122 | a kept record stores a composite key for a column iff the cell is an integer, with that integer; every key it stores starts with its lower-cased `svname.pxname.` |
| Collector.RowKeysDotted | haproxy.py:118 | every key a record stores holds a dot |
| Collector.FlattenRowsKeepsPlainKeys | haproxy.py:112-122 | the records never add or change a key without a dot |
| Collector.InfoEntryStored | haproxy.py:105-110 | a dot-free key is in the result iff `server` is monitored and `int()` reads the info value, and it then holds that number (non-integer values are absent, not zero) |
| Collector.FlattenRowsOk | haproxy.py:112-122 | when every record has both names and no extra fields, flattening never raises |
| Collector.LastRowStored | haproxy.py:117-122 | an integer cell of the last, kept record is stored under its composite key with its own value |
| Collector.CompositeKeySplit | haproxy.py:118 | splitting a composite key at its last dot gives back the column when the column has no dot, even if the names contain dots |
| Resolver.KeyParts | haproxy.py:157-163 | with a dot, prefix, dot and root rebuild the key and the root has no dot; without a dot, the prefix is empty and the root is the whole key |
| Resolver.Resolve | haproxy.py:156-168 | an entry is dispatched iff the part of its key after the last dot (the whole key without a dot) is a table key; it goes out under the part before the dot, a dot and the canonical name, with the table's type and its own value |
| Resolver.ResolveBare | haproxy.py:157-168 | a dot-free key that is in the table goes out with a leading dot before the canonical name |
| Resolver.ResolveComposite | haproxy.py:161-168 | a composite key whose column is in the table goes out under the lower-cased names followed by the canonical name, whatever dots the names contain |
| Resolver.ResolveUnknownField | haproxy.py:161-165 | a composite key whose dot-free column is not in the table is never dispatched |
| Resolver.Dispatch | haproxy.py:152-172 | an empty dictionary dispatches nothing; each value sent comes from a distinct key that resolves, and every key that resolves is sent |
| Resolver.DispatchCount | haproxy.py:156-172 | as many values are dispatched as there are keys that resolve |
| Resolver.DistinctCard | haproxy.py:156 | a sequence without repetitions has as many elements as its set |
| Resolver.ReadCallback | haproxy.py:148-172 | the callback raises iff `get_stats` raises; a socket failure dispatches nothing; otherwise one value is sent per resolving key of the dictionary |

## Left out

- Socket I/O: `connect`, `send`, `close` and the socket errors (haproxy.py:55-58, 62, 64, 71) are left out. Each `recv` result is a given string, and a failed call is the `None` reply that `GetStatsOf` receives.
- `RECV_SIZE` only bounds each chunk, so the model takes the chunks as given.
- `collectd.Values(...).dispatch()`, `collectd.register_config`, `collectd.register_read` and `logger` are foreign host calls and are left out. A dispatch is modelled as a `Resolver.Sample`. The constant plugin name `haproxy` is not recorded in it.
- The module globals are not modelled as globals. `configure_callback` returns a `Config`, and `get_stats` and `read_callback` take it as a parameter.
- Configuration nodes carry only their first value (`node.values[0]`). A node without values would raise `IndexError`, and the model does not represent it.
- Configuration numbers are real values. `bool()` of a number is modelled as "not zero".
- `csv` quoting, escaping, dialects and NUL bytes are left out: the report is split on plain commas.
- A `DictReader` cell of `None` (a short record) is modelled as an absent cell. `int(None)` raises `TypeError`, which the source catches, so such a cell is never stored. A `None` in `svname` or `pxname` raises when lower-cased, which the model treats like a missing column.
- Python 2's `int()` on a byte string is modelled as optional surrounding whitespace, an optional sign that whitespace may follow, and one or more ASCII digits; `int()` of a `long` value's text gives a `long`, which the unbounded integers cover.
- `splitlines` is modelled as Python 2 applies it to byte strings, with `\n`, `\r` and `\r\n` as the line breaks.
- `lower` is modelled on ASCII capitals only.
- Dictionary iteration order is arbitrary in the source. `Dispatch` takes keys in an unspecified order, and `ReadCallback` states the dispatched values per key rather than in a fixed order.
