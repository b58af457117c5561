/** The large TCP transfer: a writer that sends the alphabet over and over through a cyclic buffer, in whatever
    pieces the socket accepts, resumed by callbacks. */
module LargeTransfer {

  const TOTAL_TX_BYTES := 2000000
  const WRITE_SIZE := 1040

  /** The first n bytes of the alphabet repeated for ever. */
  function Alphabet(n: nat): (s: seq<int>)
    ensures |s| == n && forall i :: 0 <= i < n ==> s[i] == 97 + i % 26
  {
    seq(n, i => 97 + i % 26)
  }

  /** Wherever a write starts, the buffer continues the stream, because 26 divides the write size. */
  lemma BufferContinuesStream(sent: nat, k: nat)
    ensures 97 + (sent % WRITE_SIZE + k) % 26 == 97 + (sent + k) % 26
  {
    var q, r := sent / WRITE_SIZE, sent % WRITE_SIZE;
    assert sent == WRITE_SIZE * q + r;
    assert sent + k == 26 * (40 * q) + (r + k);
    MultipleVanishes(40 * q, r + k);
  }

  lemma MultipleVanishes(m: nat, x: nat)
    ensures (26 * m + x) % 26 == x % 26
  {
  }

  /** A stream socket with a send buffer: it may have room or not, and may take any part of what it is offered or
      refuse it. What it has accepted and how often it was closed is recorded. */
  class Socket {
    var accepted: seq<int>
    var closes: nat
    var blocked: bool

    constructor ()
      ensures accepted == [] && closes == 0 && !blocked
    {
      accepted, closes, blocked := [], 0, false;
    }

    method GetTxAvailable() returns (n: nat)
      modifies `blocked
      ensures blocked == (n == 0)
    {
      n :| 0 <= n;
      blocked := n == 0;
    }

    method Send(buffer: array<int>, offset: nat, n: nat) returns (amount: int)
      requires 0 < n && offset + n <= buffer.Length
      modifies `accepted, `blocked
      ensures amount != 0 && amount <= n
      ensures accepted == if amount < 0 then old(accepted) else old(accepted) + buffer[offset..offset + amount]
      ensures blocked == (amount < 0)
    {
      amount :| amount != 0 && amount <= n;
      if amount > 0 {
        accepted := accepted + buffer[offset..offset + amount];
      }
      blocked := amount < 0;
    }

    method Close()
      modifies `closes
      ensures closes == old(closes) + 1
    {
      closes := closes + 1;
    }
  }

  class Writer {
    const data: array<int>
    const socket: Socket
    var currentTxBytes: nat

    /** The socket has taken exactly a prefix of the repeated alphabet, at most the total, and has been closed only
        if it has taken everything. */
    ghost predicate Valid()
      reads this, data, socket
    {
      && data[..] == Alphabet(WRITE_SIZE)
      && currentTxBytes <= TOTAL_TX_BYTES
      && socket.accepted == Alphabet(currentTxBytes)
      && (socket.closes > 0 ==> currentTxBytes == TOTAL_TX_BYTES)
    }

    /** Fills the buffer. */
    constructor ()
      ensures Valid() && fresh(data) && fresh(socket) && currentTxBytes == 0 && socket.closes == 0
    {
      data := new int[WRITE_SIZE];
      socket := new Socket();
      currentTxBytes := 0;
      new;
      var i := 0;
      while i < WRITE_SIZE
        invariant 0 <= i <= WRITE_SIZE == data.Length && currentTxBytes == 0
        invariant socket.accepted == [] && socket.closes == 0 && fresh(data) && fresh(socket)
        invariant forall k :: 0 <= k < i ==> data[k] == 97 + k % 26
      {
        data[i] := 97 + i % 26;
        i := i + 1;
      }
      assert data[..] == Alphabet(WRITE_SIZE);
      assert socket.accepted == Alphabet(0);
    }

    /** Writes until everything is accepted or the socket blocks. Nothing accepted is ever taken back; the method
        gives up early only because the socket is full or refuses, and closes exactly when all is accepted. */
    method WriteUntilBufferFull()
      requires Valid()
      modifies `currentTxBytes, socket
      ensures Valid()
      ensures old(socket.accepted) <= socket.accepted
      ensures currentTxBytes == TOTAL_TX_BYTES || socket.blocked
      ensures socket.closes == old(socket.closes) + if Done() then 1 else 0
    {
      var available: nat := socket.GetTxAvailable();
      while currentTxBytes < TOTAL_TX_BYTES && available > 0
        invariant Valid() && old(socket.accepted) <= socket.accepted && socket.closes == old(socket.closes)
        invariant available == 0 ==> socket.blocked
        decreases TOTAL_TX_BYTES - currentTxBytes
      {
        var left := TOTAL_TX_BYTES - currentTxBytes;
        var dataOffset := currentTxBytes % WRITE_SIZE;
        var toWrite := WRITE_SIZE - dataOffset;
        toWrite := if left < toWrite then left else toWrite;
        toWrite := if available < toWrite then available else toWrite;
        var amountSent := socket.Send(data, dataOffset, toWrite);
        if amountSent < 0 {
          return;
        }
        ghost var sent := currentTxBytes;
        currentTxBytes := currentTxBytes + amountSent;
        StreamGrows(data[..], sent, dataOffset, amountSent);
        available := socket.GetTxAvailable();
      }
      if currentTxBytes >= TOTAL_TX_BYTES {
        socket.Close();
      }
    }

    /** A refusal returns before the check for completion, which cannot hold then. */
    predicate Done()
      reads this
    {
      currentTxBytes == TOTAL_TX_BYTES
    }

    /** Starts the flow and serves any number of callbacks. */
    method StartFlow(callbacks: nat)
      requires Valid() && socket.closes == 0
      modifies `currentTxBytes, socket
      ensures Valid()
      ensures socket.accepted == Alphabet(|socket.accepted|) && |socket.accepted| <= TOTAL_TX_BYTES
      ensures socket.closes > 0 <==> |socket.accepted| == TOTAL_TX_BYTES
      ensures socket.closes > 0 || socket.blocked
    {
      WriteUntilBufferFull();
      var served := 0;
      while served < callbacks
        invariant Valid() && (socket.closes > 0 || socket.blocked)
        invariant socket.closes > 0 <==> currentTxBytes == TOTAL_TX_BYTES
      {
        WriteUntilBufferFull();
        served := served + 1;
      }
    }
  }

  /** Appending a piece of the buffer that starts at the current position extends the prefix. */
  lemma StreamGrows(buffer: seq<int>, sent: nat, offset: nat, amount: nat)
    requires buffer == Alphabet(WRITE_SIZE) && offset == sent % WRITE_SIZE && offset + amount <= WRITE_SIZE
    ensures Alphabet(sent) + buffer[offset..offset + amount] == Alphabet(sent + amount)
  {
    var stream := Alphabet(sent + amount);
    forall i | sent <= i < sent + amount ensures stream[i] == buffer[offset..offset + amount][i - sent] {
      BufferContinuesStream(sent, i - sent);
    }
    hide Alphabet;
    assert Alphabet(sent) == stream[..sent];
  }
}
