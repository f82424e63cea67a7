// The output path of TCPConn: what the socket does not take at once waits in the output buffer, and
// the connection asks to be told when the socket is writable exactly while something waits.
module TcpConn {
  import opened NetworkOrder
  import opened Buffer

  datatype Status = Disconnected | Connecting | Connected | Disconnecting

  // errno after a send: one that says to try again, EPIPE or ECONNRESET, or another.
  datatype Errno = Retriable | PeerGone | OtherError

  // What the connection queues in its loop for its user.
  datatype Callback = WriteComplete | HighWaterMark(size: nat)

  class TCPConn {
    var status: Status
    var chanWritable: bool       // the channel's interest in write events
    var outputBuffer: Buffer
    var highWaterMark: nat
    const writeCompleteFn: bool  // which callbacks the user has set
    const highWaterMarkFn: bool
    var callbacks: seq<Callback>
    // What the socket has accepted, and what SendInLoop was given and did not refuse.
    var accepted: seq<octet>
    ghost var given: seq<octet>

    ghost predicate Valid()
      reads this, outputBuffer
    {
      outputBuffer.Valid()
    }

    // No octet is lost, duplicated or reordered between SendInLoop and the socket, and the channel
    // is interested in writing exactly while octets wait.
    ghost predicate Flowing()
      reads this, outputBuffer, outputBuffer.buffer
      requires Valid()
    {
      && given == accepted + outputBuffer.Contents()
      && (chanWritable <==> outputBuffer.Contents() != [])
    }

    // A connection attached to its loop.
    constructor (highWaterMark: nat, writeCompleteFn: bool, highWaterMarkFn: bool)
      ensures Valid() && Flowing() && status == Connected && fresh(outputBuffer) && fresh(outputBuffer.buffer)
      ensures accepted == given == [] && callbacks == []
    {
      status, chanWritable := Connected, false;
      this.highWaterMark, this.writeCompleteFn, this.highWaterMarkFn := highWaterMark, writeCompleteFn, highWaterMarkFn;
      callbacks, accepted, given := [], [], [];
      outputBuffer := new Buffer(INITIAL_SIZE, CHEAP_PREPEND_SIZE);
    }

    // How much of `data` a send that returned `n` took.
    static function Taken(data: seq<octet>, n: int): nat
      requires n <= |data|
    {
      if n > 0 then n else 0
    }

    // Whether SendInLoop may try the socket at once.
    ghost predicate Idle()
      reads this, outputBuffer, outputBuffer.buffer
      requires Valid()
    {
      !chanWritable && outputBuffer.Contents() == []
    }

    // `n` and `errno` are what ::send returns, if it is called.
    method SendInLoop(data: seq<octet>, n: int, errno: Errno)
      requires Valid() && Flowing() && -1 <= n <= |data|
      modifies this, outputBuffer, outputBuffer.buffer
      ensures Valid() && outputBuffer == old(outputBuffer)
      ensures outputBuffer.buffer == old(outputBuffer.buffer) || fresh(outputBuffer.buffer)
      ensures old(status) == Disconnected ==>
                status == Disconnected && given == old(given) && accepted == old(accepted) && callbacks == old(callbacks)
      ensures old(status) != Disconnected ==>
                (status == Disconnected <==> old(Idle()) && n < 0 && errno == PeerGone)
      ensures status != Disconnected ==>
                && Flowing() && status == old(status) && given == old(given) + data
                && accepted == old(accepted) + data[..if old(Idle()) then Taken(data, n) else 0]
                && callbacks == old(callbacks) + SendCallbacks(old(|outputBuffer.Contents()|), |data|, old(Idle()), n)
    {
      if status == Disconnected {
        return;
      }
      var nwritten: nat := 0;
      var remaining: nat := |data|;
      var writeError := false;
      ghost var idle := Idle();
      if !chanWritable && outputBuffer.Length() == 0 {
        if n >= 0 {
          accepted := accepted + data[..n];
          nwritten := n;
          remaining := |data| - n;
          if remaining == 0 && writeCompleteFn {
            callbacks := callbacks + [WriteComplete];
          }
        } else if errno != Retriable {
          writeError := errno == PeerGone;
        }
      }
      if writeError {
        HandleError();
        return;
      }
      assert remaining <= |data|;
      given := given + data;
      if remaining > 0 {
        BufferRest(data, nwritten);
      }
    }

    // The tail of SendInLoop: the octets the socket did not take are buffered.
    method BufferRest(data: seq<octet>, nwritten: nat)
      requires Valid() && nwritten < |data| && status != Disconnected
      modifies `callbacks, `chanWritable, outputBuffer, outputBuffer.buffer
      ensures outputBuffer.buffer == old(outputBuffer.buffer) || fresh(outputBuffer.buffer)
      ensures Valid() && outputBuffer.Contents() == old(outputBuffer.Contents()) + data[nwritten..] && chanWritable
      ensures callbacks == old(callbacks) + Crossing(old(|outputBuffer.Contents()|), |data| - nwritten)
    {
      var oldLen := outputBuffer.Length();
      var remaining := |data| - nwritten;
      if oldLen + remaining >= highWaterMark && oldLen < highWaterMark && highWaterMarkFn {
        callbacks := callbacks + [HighWaterMark(oldLen + remaining)];
      }
      outputBuffer.Write(data[nwritten..]);
      if !chanWritable {
        chanWritable := true;
      }
    }

    // The high-water mark is reported when the buffer grows over it.
    function Crossing(oldLen: nat, more: nat): seq<Callback>
      reads this
    {
      if oldLen < highWaterMark <= oldLen + more && highWaterMarkFn then [HighWaterMark(oldLen + more)] else []
    }

    function SendCallbacks(oldLen: nat, len: nat, idle: bool, n: int): seq<Callback>
      reads this
      requires n <= len
    {
      if idle && n == len then (if writeCompleteFn then [WriteComplete] else [])
      else if idle && n > 0 then Crossing(oldLen, len - n)
      else if len > 0 then Crossing(oldLen, len)
      else []
    }

    // What is reported while the parts are buffered one after the other, with `start` octets before.
    function Crossings(start: nat, parts: seq<nat>): seq<Callback>
      reads this
      decreases |parts|
    {
      if parts == [] then [] else Crossing(start, parts[0]) + Crossings(start + parts[0], parts[1..])
    }

    // In however many parts the buffer grows, growing over the mark is reported once, with the size it
    // then has, by the k-th; a buffer that stays below or was at the mark before reports nothing.
    lemma {:induction false} ReportedOnce(start: nat, parts: seq<nat>) returns (k: nat)
      ensures if highWaterMarkFn && start < highWaterMark <= start + Sum(parts) then
                && 0 < k <= |parts| && Crossings(start, parts) == [HighWaterMark(start + Sum(parts[..k]))]
                && start + Sum(parts[..k - 1]) < highWaterMark <= start + Sum(parts[..k])
              else Crossings(start, parts) == []
      decreases |parts|
    {
      k := 0;
      if parts != [] {
        var more := start + parts[0];
        var j := ReportedOnce(more, parts[1..]);
        if highWaterMarkFn && start < highWaterMark <= more {
          k := 1;
          assert parts[..1] == [parts[0]] && parts[..0] == [];
        } else if highWaterMarkFn && start < highWaterMark <= start + Sum(parts) {
          k := j + 1;
          FirstPart(parts, j);
          FirstPart(parts, j - 1);
        }
      }
    }

    // The channel is writable; a send of zero octets is judged by whatever errno holds.
    method HandleWrite(n: int, errno: Errno)
      requires Valid() && Flowing() && status != Disconnected && chanWritable
      requires -1 <= n <= |outputBuffer.Contents()|
      modifies this, outputBuffer
      ensures Valid() && outputBuffer == old(outputBuffer) && given == old(given)
      ensures status == Disconnected <==> n <= 0 && errno != Retriable
      ensures status != Disconnected ==>
                && Flowing() && status == old(status)
                && accepted == old(accepted) + old(outputBuffer.Contents())[..if n > 0 then n else 0]
                && callbacks == old(callbacks) + if n == old(|outputBuffer.Contents()|) && writeCompleteFn then [WriteComplete] else []
    {
      if n > 0 {
        TakeSent(n);
      } else if errno != Retriable {
        HandleError();
      }
    }

    // What ::send took leaves the buffer.
    method TakeSent(n: nat)
      requires Valid() && Flowing() && chanWritable && 0 < n <= |outputBuffer.Contents()|
      modifies `accepted, `chanWritable, `callbacks, outputBuffer
      ensures Valid() && Flowing()
      ensures accepted == old(accepted) + old(outputBuffer.Contents())[..n]
      ensures callbacks == old(callbacks) + if n == old(|outputBuffer.Contents()|) && writeCompleteFn then [WriteComplete] else []
    {
      ghost var contents := outputBuffer.Contents();
      var front := outputBuffer.buffer[outputBuffer.readIndex..outputBuffer.readIndex + n];
      assert front == contents[..n];
      accepted := accepted + front;
      var sent := outputBuffer.Next(n);
      Passed(old(accepted), front, outputBuffer.Contents(), contents);
      if outputBuffer.Length() == 0 {
        chanWritable := false;
        if writeCompleteFn {
          callbacks := callbacks + [WriteComplete];
        }
      }
    }

    method HandleError()
      requires Valid()
      modifies `status, `chanWritable
      ensures status == Disconnected && !chanWritable
    {
      status := Disconnecting;
      HandleClose();
    }

    // The user's connection and close callbacks run in between; they are not part of this model.
    method HandleClose()
      requires Valid() && (status == Disconnected || status == Disconnecting)
      modifies `status, `chanWritable
      ensures status == Disconnected
      ensures chanWritable == (old(status) == Disconnected && old(chanWritable))
    {
      if status == Disconnected {
        return;
      }
      assert status == Disconnecting;
      chanWritable := false;
      status := Disconnected;
    }
  }

  // What moves from the front of one sequence to the end of another stays in its place.
  lemma Passed(before: seq<octet>, front: seq<octet>, left: seq<octet>, all: seq<octet>)
    requires |front| <= |all| && front == all[..|front|] && left == all[|front|..]
    ensures before + front + left == before + all
  {
    assert front + left == all;
  }

  function Sum(parts: seq<nat>): nat { if parts == [] then 0 else parts[0] + Sum(parts[1..]) }

  lemma FirstPart(parts: seq<nat>, k: nat)
    requires k < |parts|
    ensures Sum(parts[..k + 1]) == parts[0] + Sum(parts[1..][..k])
  {
    assert parts[..k + 1] == [parts[0]] + parts[1..][..k];
  }
}
