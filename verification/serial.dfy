/** The serial line as the driver sees it: `write` sends one line, `readline`
    returns the controller's next reply. The port itself (opening it, baud
    rate, stop bits, timeouts) is outside the model; a read with nothing left
    to read returns the empty string, which is what a timed-out `readline`
    hands back. */
module Serial {

  /** The `k`-th reply still to come, or "" when the controller has gone quiet. */
  function Reply(q: seq<string>, k: nat): string
  {
    if k < |q| then q[k] else ""
  }

  /** The replies left after `k` reads. */
  function Drop(q: seq<string>, k: nat): seq<string>
  {
    if k <= |q| then q[k..] else []
  }

  /** Reading `i` replies and then `j` more is reading `i + j` replies. */
  lemma DropDrop(q: seq<string>, i: nat, j: nat)
    ensures Drop(Drop(q, i), j) == Drop(q, i + j)
    ensures Reply(Drop(q, i), j) == Reply(q, i + j)
  {
  }

  /** The `k`-th reply is what the next read returns once `k` replies have
      been read: the head of what is left, or "" when nothing is left. */
  lemma ReplyIsHead(q: seq<string>, k: nat)
    ensures Reply(q, k) == (if Drop(q, k) == [] then "" else Drop(q, k)[0])
    ensures |Drop(q, k)| == if k <= |q| then |q| - k else 0
  {
  }

  class Transport {
    /** Every line written so far, oldest first. */
    var sent: seq<string>
    /** The replies the controller will give, in order. */
    var replies: seq<string>

    constructor (script: seq<string>)
      ensures sent == [] && replies == script
    {
      sent := [];
      replies := script;
    }

    method Write(line: string)
      modifies this
      ensures sent == old(sent) + [line]
      ensures replies == old(replies)
    {
      sent := sent + [line];
    }

    method ReadLine() returns (line: string)
      modifies this
      ensures line == Reply(old(replies), 0)
      ensures replies == Drop(old(replies), 1)
      ensures sent == old(sent)
    {
      if replies == [] {
        line := "";
      } else {
        line := replies[0];
        replies := replies[1..];
      }
    }
  }
}
