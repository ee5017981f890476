/** The resumable writer of the large transfer: whatever the socket accepts, over any
    number of callbacks, is a prefix of one fixed byte sequence. */
module LargeTransfer {

  type Byte = b: nat | b < 256

  const TOTAL_TX_BYTES := 2000000
  const WRITE_SIZE := 1040

  /** The byte the receiver expects at position `k`: the letters, over and over. */
  function Letter(k: nat): Byte {
    97 + k % 26
  }

  const ALPHABET := "abcdefghijklmnopqrstuvwxyz"

  /** The bytes are the codes of the alphabet, over and over. */
  lemma LettersRepeat(k: nat)
    ensures Letter(k) == ALPHABET[k % 26] as int
    ensures Letter(k + 26) == Letter(k)
  {
    AlphabetAt(k % 26);
  }

  lemma AlphabetAt(i: nat)
    requires i < 26
    ensures ALPHABET[i] as int == 97 + i
  {
  }

  /** The first `n` bytes of the transfer. */
  function Pattern(n: nat): (r: seq<Byte>)
    ensures |r| == n && forall k :: 0 <= k < n ==> r[k] == Letter(k)
  {
    seq(n, k requires 0 <= k < n => Letter(k))
  }

  /** A socket in an arbitrary environment. Time passes between callbacks in epochs. The
      space reported and the answer to a send (how many of the offered bytes are taken, or a
      negative number for a refusal) may differ from epoch to epoch, for any reason, and
      within an epoch with each send. */
  class Socket {
    /** The transmit space in an epoch after a number of sends in it. */
    const space: (nat, nat) -> nat
    /** The answer, in an epoch, to its k-th send, by the number of bytes offered. */
    const answer: (nat, nat, nat) -> int
    var epoch: nat
    var sends: nat
    var closes: nat
    ghost var lastAnswer: int
    ghost var stream: seq<Byte>

    constructor (space: (nat, nat) -> nat, answer: (nat, nat, nat) -> int)
      ensures this.space == space && this.answer == answer
      ensures epoch == 0 && sends == 0 && closes == 0 && stream == []
    {
      this.space, this.answer := space, answer;
      epoch, sends, closes, stream, lastAnswer := 0, 0, 0, [], 0;
    }

    /** It takes no more than it is offered, and something unless it refuses. */
    ghost predicate TakesOrRefuses() {
      forall e: nat, k: nat, n: nat :: answer(e, k, n) <= n && (n > 0 ==> answer(e, k, n) != 0)
    }

    function GetTxAvailable(): nat
      reads this
    {
      space(epoch, sends)
    }

    method Send(data: array<Byte>, offset: nat, n: nat) returns (amount: int)
      requires TakesOrRefuses() && offset + n <= data.Length
      modifies this`sends, this`stream, this`lastAnswer
      ensures amount == lastAnswer == answer(epoch, old(sends), n) && sends == old(sends) + 1 && amount <= n
      ensures n > 0 ==> amount != 0
      ensures stream == if amount < 0 then old(stream) else old(stream) + data[offset..offset + amount]
    {
      amount := answer(epoch, sends, n);
      sends, lastAnswer := sends + 1, amount;
      if amount >= 0 {
        stream := stream + data[offset..offset + amount];
      }
    }

    method Close()
      modifies this`closes
      ensures closes == old(closes) + 1
    {
      closes := closes + 1;
    }

    /** The network makes progress, or not, before the next callback. */
    method Elapse()
      modifies this`epoch, this`sends
      ensures epoch == old(epoch) + 1 && sends == 0
    {
      epoch, sends := epoch + 1, 0;
    }
  }

  /** A full buffer holds a whole number of alphabets, so offsets repeat the pattern. */
  lemma BufferMatchesPattern(k: nat, j: nat)
    requires j < WRITE_SIZE - k % WRITE_SIZE
    ensures Letter(k % WRITE_SIZE + j) == Letter(k + j)
  {
    var q := k / WRITE_SIZE;
    assert k + j == 26 * (40 * q) + (k % WRITE_SIZE + j);
    AddAlphabets(40 * q, k % WRITE_SIZE + j);
  }

  lemma AddAlphabets(q: nat, r: nat)
    ensures (26 * q + r) % 26 == r % 26
  {
  }

  /** Accepting `amount` bytes from the current offset extends the pattern. */
  lemma ExtendPattern(buffer: seq<Byte>, k: nat, amount: nat)
    requires |buffer| == WRITE_SIZE && forall i :: 0 <= i < WRITE_SIZE ==> buffer[i] == Letter(i)
    requires amount <= WRITE_SIZE - k % WRITE_SIZE
    ensures Pattern(k) + buffer[k % WRITE_SIZE..k % WRITE_SIZE + amount] == Pattern(k + amount)
  {
    var piece := buffer[k % WRITE_SIZE..k % WRITE_SIZE + amount];
    forall j | 0 <= j < amount
      ensures piece[j] == Letter(k + j)
    {
      BufferMatchesPattern(k, j);
    }
  }

  /** In this epoch the first send finds space and is not refused. */
  ghost predicate Serving(socket: Socket, e: nat) {
    socket.space(e, 0) > 0 && forall n: nat :: n > 0 ==> socket.answer(e, 0, n) > 0
  }

  /** How many of the `n` epochs from `e` on serve the sender. */
  ghost function ServingEpochs(socket: Socket, e: nat, n: nat): nat {
    if n == 0 then 0 else ServingEpochs(socket, e, n - 1) + (if Serving(socket, e + n - 1) then 1 else 0)
  }

  lemma {:induction false} AllServing(socket: Socket, e: nat, n: nat)
    requires forall k :: e <= k < e + n ==> Serving(socket, k)
    ensures ServingEpochs(socket, e, n) == n
  {
    if n > 0 {
      AllServing(socket, e, n - 1);
      assert Serving(socket, e + n - 1);
    }
  }

  /** In this epoch there is always space and no send is refused. */
  ghost predicate Willing(socket: Socket, e: nat) {
    && (forall k: nat :: socket.space(e, k) > 0)
    && (forall k: nat, n: nat :: socket.answer(e, k, n) >= 0)
  }

  function Min(a: nat, b: nat): nat {
    if a < b then a else b
  }

  /** The number of bytes offered next when `sent` are sent and there is some space. */
  function Offer(sent: nat, available: nat): nat
    requires sent <= TOTAL_TX_BYTES
  {
    Min(Min(WRITE_SIZE - sent % WRITE_SIZE, TOTAL_TX_BYTES - sent), available)
  }

  /** The offer is the most that neither passes the buffer nor the transfer nor the space. */
  lemma OfferIsLargest(sent: nat, available: nat, n: nat)
    requires sent <= TOTAL_TX_BYTES
    ensures n <= Offer(sent, available)
       <==> n <= WRITE_SIZE - sent % WRITE_SIZE && sent + n <= TOTAL_TX_BYTES && n <= available
  {
  }

  class Sender {
    const data: array<Byte>
    var currentTxBytes: nat

    /** Fill the buffer, as the main program does before the simulation. */
    constructor ()
      ensures fresh(data) && Filled() && currentTxBytes == 0
    {
      data := new Byte[WRITE_SIZE];
      currentTxBytes := 0;
      new;
      for i := 0 to WRITE_SIZE
        invariant data.Length == WRITE_SIZE && currentTxBytes == 0
        invariant forall k :: 0 <= k < i ==> data[k] == Letter(k)
      {
        var m := (97 + i % 26) % 128;
        data[i] := m;
      }
    }

    ghost predicate Filled()
      reads data
    {
      data.Length == WRITE_SIZE && forall i :: 0 <= i < WRITE_SIZE ==> data[i] == Letter(i)
    }

    /** The socket has accepted exactly the first `currentTxBytes` bytes. */
    ghost predicate Valid(socket: Socket)
      reads this, data, socket
    {
      && Filled() && socket.TakesOrRefuses()
      && currentTxBytes <= TOTAL_TX_BYTES
      && socket.stream == Pattern(currentTxBytes)
    }

    /** The send callback. It gets ahead exactly when there is space and the first send is
        not refused, stops early only because the socket is full or refuses, and closes the
        socket exactly when everything was accepted. */
    method WriteUntilBufferFull(socket: Socket)
      requires Valid(socket)
      modifies this`currentTxBytes, socket`sends, socket`stream, socket`lastAnswer, socket`closes
      ensures Valid(socket)
      ensures old(socket.stream) <= socket.stream
      ensures old(currentTxBytes) <= currentTxBytes
      ensures old(currentTxBytes) < currentTxBytes <==>
        && old(currentTxBytes) < TOTAL_TX_BYTES && old(socket.GetTxAvailable()) > 0
        && socket.answer(socket.epoch, old(socket.sends), Offer(old(currentTxBytes), old(socket.GetTxAvailable()))) > 0
      ensures currentTxBytes < TOTAL_TX_BYTES ==> socket.lastAnswer < 0 || socket.GetTxAvailable() == 0
      ensures socket.closes == old(socket.closes) + if currentTxBytes == TOTAL_TX_BYTES then 1 else 0
      ensures Willing(socket, socket.epoch) ==> currentTxBytes == TOTAL_TX_BYTES
    {
      hide Pattern, Socket.TakesOrRefuses, Letter;
      ghost var started := false;
      while currentTxBytes < TOTAL_TX_BYTES && socket.GetTxAvailable() > 0
        invariant Valid(socket) && old(currentTxBytes) <= currentTxBytes
        invariant old(socket.stream) <= socket.stream
        invariant socket.closes == old(socket.closes)
        invariant !started ==> currentTxBytes == old(currentTxBytes) && socket.sends == old(socket.sends)
        invariant started ==>
          && old(currentTxBytes) < currentTxBytes && old(socket.GetTxAvailable()) > 0
          && var offer := Offer(old(currentTxBytes), old(socket.GetTxAvailable()));
             socket.answer(socket.epoch, old(socket.sends), offer) > 0
        decreases TOTAL_TX_BYTES - currentTxBytes
      {
        var left := TOTAL_TX_BYTES - currentTxBytes;
        var dataOffset := currentTxBytes % WRITE_SIZE;
        var toWrite := WRITE_SIZE - dataOffset;
        toWrite := Min(toWrite, left);
        toWrite := Min(toWrite, socket.GetTxAvailable());
        assert toWrite == Offer(currentTxBytes, socket.GetTxAvailable()) > 0;
        var amountSent := socket.Send(data, dataOffset, toWrite);
        if amountSent < 0 {
          return;
        }
        ExtendPattern(data[..], currentTxBytes, amountSent);
        assert data[..][dataOffset..dataOffset + amountSent] == data[dataOffset..dataOffset + amountSent];
        currentTxBytes := currentTxBytes + amountSent;
        started := true;
      }
      if currentTxBytes >= TOTAL_TX_BYTES {
        socket.Close();
      }
    }

    /** The flow from its start, with any number of callbacks: the stream is always a prefix
        of the transfer, and the socket was closed exactly if the transfer is complete. However
        often the socket is full or refuses, each epoch that serves the sender brings it at least
        one byte closer; so enough of them complete the transfer. */
    method Flow(socket: Socket, callbacks: nat)
      requires Filled() && socket.TakesOrRefuses()
      requires currentTxBytes == 0 && socket.stream == [] && socket.sends == 0
      modifies this`currentTxBytes, socket
      ensures Valid(socket)
      ensures socket.stream == Pattern(currentTxBytes) <= Pattern(TOTAL_TX_BYTES)
      ensures |socket.stream| == currentTxBytes <= 2000000
      ensures forall k :: 0 <= k < |socket.stream| ==> socket.stream[k] == ALPHABET[k % 26] as int
      ensures socket.closes > old(socket.closes) <==> currentTxBytes == TOTAL_TX_BYTES
      ensures currentTxBytes >= Min(TOTAL_TX_BYTES, ServingEpochs(socket, old(socket.epoch), callbacks + 1))
      ensures Willing(socket, old(socket.epoch)) ==> currentTxBytes == TOTAL_TX_BYTES
    {
      assert Pattern(0) == [];
      ghost var start := socket.epoch;
      Callback(socket, start, 0);
      for i := 0 to callbacks
        invariant Valid(socket) && socket.epoch == start + i
        invariant currentTxBytes >= Min(TOTAL_TX_BYTES, ServingEpochs(socket, start, i + 1))
        invariant Willing(socket, start) ==> currentTxBytes == TOTAL_TX_BYTES
        invariant socket.closes >= old(socket.closes)
        invariant socket.closes > old(socket.closes) <==> currentTxBytes == TOTAL_TX_BYTES
      {
        socket.Elapse();
        Callback(socket, start, i + 1);
      }
      PatternPrefix(currentTxBytes, TOTAL_TX_BYTES);
      forall k | 0 <= k < currentTxBytes
        ensures Pattern(currentTxBytes)[k] == ALPHABET[k % 26] as int
      {
        LettersRepeat(k);
      }
    }

    /** The callback at the beginning of an epoch. */
    method Callback(socket: Socket, ghost start: nat, ghost n: nat)
      requires Valid(socket) && socket.sends == 0 && socket.epoch == start + n
      requires currentTxBytes >= Min(TOTAL_TX_BYTES, ServingEpochs(socket, start, n))
      modifies this`currentTxBytes, socket`sends, socket`stream, socket`lastAnswer, socket`closes
      ensures Valid(socket) && currentTxBytes >= old(currentTxBytes)
      ensures currentTxBytes >= Min(TOTAL_TX_BYTES, ServingEpochs(socket, start, n + 1))
      ensures Willing(socket, socket.epoch) ==> currentTxBytes == TOTAL_TX_BYTES
      ensures socket.closes == old(socket.closes) + if currentTxBytes == TOTAL_TX_BYTES then 1 else 0
    {
      WriteUntilBufferFull(socket);
      assert Serving(socket, start + n) && old(currentTxBytes) < TOTAL_TX_BYTES ==>
        socket.answer(socket.epoch, 0, Offer(old(currentTxBytes), old(socket.GetTxAvailable()))) > 0;
    }

    /** If every callback finds space and is not refused, at most as many callbacks as there
        are bytes complete the transfer and close the socket. */
    method ServedFlow(socket: Socket)
      requires Filled() && socket.TakesOrRefuses()
      requires currentTxBytes == 0 && socket.stream == [] && socket.sends == 0
      requires forall k :: socket.epoch <= k < socket.epoch + TOTAL_TX_BYTES ==> Serving(socket, k)
      modifies this`currentTxBytes, socket
      ensures socket.stream == Pattern(TOTAL_TX_BYTES) && socket.closes > old(socket.closes)
      ensures |socket.stream| == 2000000
      ensures forall k :: 0 <= k < 2000000 ==> socket.stream[k] == ALPHABET[k % 26] as int
    {
      AllServing(socket, socket.epoch, TOTAL_TX_BYTES);
      Flow(socket, TOTAL_TX_BYTES - 1);
    }
  }

  lemma PatternPrefix(m: nat, n: nat)
    requires m <= n
    ensures Pattern(m) <= Pattern(n)
  {
  }
}
