/**
 * The text-level part of `HAProxySocket.communicate`: the command line that
 * is written to the control socket and the response assembled from the
 * chunks that `recv` returns. Opening, writing and closing the socket are
 * outside the model; the successive `recv` results are a parameter.
 */
module Transport {
  import opened Text

  /** The command as written: a newline is appended only when it is missing. */
  function CommandLine(command: String): (line: String)
    ensures EndsWith(line, "\n")
    ensures |command| <= |line| <= |command| + 1 && line[..|command|] == command
    ensures EndsWith(command, "\n") ==> line == command
  {
    if EndsWith(command, "\n") then command else command + "\n"
  }

  /**
   * A command that already ends with a newline is sent unchanged, and any
   * other gets exactly one newline appended.
   */
  lemma CommandLineCases(command: String)
    ensures EndsWith(command, "\n") <==> CommandLine(command) == command
    ensures !EndsWith(command, "\n") ==> CommandLine(command) == command + "\n"
  {
  }

  /** The concatenation of a sequence of chunks. */
  function Concat(chunks: seq<String>): String
    decreases |chunks|
  {
    if chunks == [] then [] else chunks[0] + Concat(chunks[1..])
  }

  /**
   * How many chunks precede the first empty one, that is, the number of
   * reads before the peer closes the stream.
   */
  function ChunksBeforeClose(replies: seq<String>): (n: nat)
    ensures n <= |replies|
    ensures forall j :: 0 <= j < n ==> replies[j] != []
    ensures n < |replies| ==> replies[n] == []
    decreases |replies|
  {
    if replies == [] || replies[0] == [] then 0 else 1 + ChunksBeforeClose(replies[1..])
  }

  /** One `recv`: the next reply, or the empty chunk once the replies are used up. */
  function Recv(replies: seq<String>, i: nat): String
  {
    if i < |replies| then replies[i] else []
  }

  lemma ConcatSnoc(chunks: seq<String>, c: String)
    ensures Concat(chunks + [c]) == Concat(chunks) + c
    decreases |chunks|
  {
    if chunks != [] {
      assert (chunks + [c])[1..] == chunks[1..] + [c];
      ConcatSnoc(chunks[1..], c);
    }
  }

  /**
   * `communicate`: the line sent is the terminated command, and the
   * response is every chunk received until the first empty read, in order.
   */
  method Communicate(command: String, replies: seq<String>) returns (sent: String, response: String)
    ensures sent == CommandLine(command)
    ensures response == Concat(replies[..ChunksBeforeClose(replies)])
  {
    sent := CommandLine(command);
    response := [];
    var i := 0;
    var buf := Recv(replies, i);
    while buf != []
      invariant i <= ChunksBeforeClose(replies)
      invariant buf == Recv(replies, i)
      invariant response == Concat(replies[..i])
      decreases |replies| - i
    {
      assert i < |replies| && replies[i] == buf;
      ConcatSnoc(replies[..i], buf);
      assert replies[..i + 1] == replies[..i] + [replies[i]];
      response := response + buf;
      i := i + 1;
      buf := Recv(replies, i);
    }
    assert i == ChunksBeforeClose(replies);
  }
}
