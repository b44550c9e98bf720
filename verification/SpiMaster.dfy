/** spi_master: an exchange driven by receive interrupts, possibly in one buffer. */
module SpiMaster {

  type Bytes = seq<bv8>

  // ---------- an exchange on values ----------

  datatype Exchange = Exchange(memory: Bytes, received: Bytes)

  /** What is in memory and what the slave has received after `n` bytes of an exchange
      in which the slave sends `slave`.  The first byte is loaded before anything is
      stored, every later one after all earlier answers are stored. */
  function After(memory: Bytes, tx: nat, rx: nat, slave: Bytes, n: nat): Exchange
    requires 0 < n <= |slave| && tx + |slave| <= |memory| && rx + |slave| <= |memory|
    ensures |After(memory, tx, rx, slave, n).memory| == |memory|
  {
    if n == 1 then Exchange(memory[rx := slave[0]], [memory[tx]])
    else
      var e := After(memory, tx, rx, slave, n - 1);
      Exchange(e.memory[rx + n - 1 := slave[n - 1]], e.received + [e.memory[tx + n - 1]])
  }

  /** The slave gets the original bytes in order. */
  predicate SentRight(memory: Bytes, tx: nat, slave: Bytes, e: Exchange)
    requires tx + |slave| <= |memory|
  {
    e.received == memory[tx..tx + |slave|]
  }

  lemma {:induction false} MemoryAfter(memory: Bytes, tx: nat, rx: nat, slave: Bytes, n: nat)
    requires 0 < n <= |slave| && tx + |slave| <= |memory| && rx + |slave| <= |memory|
    ensures After(memory, tx, rx, slave, n).memory == memory[..rx] + slave[..n] + memory[rx + n..]
  {
    if n > 1 {
      MemoryAfter(memory, tx, rx, slave, n - 1);
    }
  }

  lemma {:induction false} ReceivedAfter(memory: Bytes, tx: nat, rx: nat, slave: Bytes, n: nat)
    requires 0 < n <= |slave| && tx + |slave| <= |memory| && rx + |slave| <= |memory|
    ensures var e := After(memory, tx, rx, slave, n);
      && |e.received| == n
      && forall i | 0 <= i < n :: e.received[i] == if rx <= tx + i < rx + i && i > 0 then slave[tx + i - rx] else memory[tx + i]
  {
    if n > 1 {
      ReceivedAfter(memory, tx, rx, slave, n - 1);
      MemoryAfter(memory, tx, rx, slave, n - 1);
    }
  }

  /** The reader's bytes arrive whatever the buffers; the slave gets the original bytes
      for all possible answers if and only if the receive buffer does not start inside
      the transmit buffer, after its first byte.  One buffer for both is fine. */
  lemma ExchangeRightIff(memory: Bytes, tx: nat, rx: nat, size: nat)
    requires size > 0 && tx + size <= |memory| && rx + size <= |memory|
    ensures forall slave: Bytes | |slave| == size ::
      After(memory, tx, rx, slave, size).memory == memory[..rx] + slave + memory[rx + size..]
    ensures (forall slave: Bytes | |slave| == size :: SentRight(memory, tx, slave, After(memory, tx, rx, slave, size)))
      <==> !(tx < rx < tx + size)
  {
    forall slave: Bytes | |slave| == size
      ensures After(memory, tx, rx, slave, size).memory == memory[..rx] + slave + memory[rx + size..]
    {
      MemoryAfter(memory, tx, rx, slave, size);
      assert slave[..size] == slave;
    }
    if tx < rx < tx + size {
      var i := rx - tx;
      var slave := seq(size, _ => !memory[rx]);
      ReceivedAfter(memory, tx, rx, slave, size);
      assert After(memory, tx, rx, slave, size).received[i] == slave[0] != memory[tx..tx + size][i];
    } else {
      forall slave: Bytes | |slave| == size
        ensures SentRight(memory, tx, slave, After(memory, tx, rx, slave, size))
      {
        ReceivedAfter(memory, tx, rx, slave, size);
      }
    }
  }

  /** The first n steps do not look at the slave's later answers. */
  lemma {:induction false} LaterAnswersDoNotMatter(memory: Bytes, tx: nat, rx: nat, slave: Bytes, more: Bytes, n: nat)
    requires 0 < n <= |slave| && tx + |slave| + |more| <= |memory| && rx + |slave| + |more| <= |memory|
    ensures After(memory, tx, rx, slave + more, n) == After(memory, tx, rx, slave, n)
  {
    if n > 1 {
      LaterAnswersDoNotMatter(memory, tx, rx, slave, more, n - 1);
    }
  }

  // ---------- the driver ----------

  class SpiMaster {
    const memory: array<bv8>
    var txPointer: nat
    var rxPointer: nat
    var bytesLeft: nat
    var dataRegister: bv8
    var rxInterrupt: bool

    constructor (memory: array<bv8>)
      ensures this.memory == memory && bytesLeft == 0 && !rxInterrupt
    {
      this.memory := memory;
      txPointer, rxPointer, bytesLeft, dataRegister, rxInterrupt := 0, 0, 0, 0, false;
    }

    /** An exchange of `size` bytes that began with `start` in memory: the slave has
        answered `answers` and has been sent `received`. */
    ghost predicate Exchanging(start: Bytes, tx: nat, rx: nat, size: nat, answers: Bytes, received: Bytes)
      reads this, memory
    {
      var n := |answers|;
      && n <= size && size > 0 && |received| == n
      && memory.Length == |start| && tx + size <= |start| && rx + size <= |start|
      && bytesLeft == size - n && rxInterrupt == (n < size)
      && (n == 0 ==> memory[..] == start)
      && (n > 0 ==> Exchange(memory[..], received) == After(start, tx, rx, answers, n))
      && (n < size ==> txPointer == tx + n && rxPointer == rx + n && dataRegister == memory[tx + n])
    }

    /** A transfer of no bytes does nothing at all. */
    method Transfer(txBuffer: nat, rxBuffer: nat, size: nat)
      requires txBuffer + size <= memory.Length && rxBuffer + size <= memory.Length && size < 0x1_0000
      modifies this
      ensures memory[..] == old(memory[..])
      ensures size > 0 ==> Exchanging(old(memory[..]), txBuffer, rxBuffer, size, [], [])
      ensures size == 0 ==> (txPointer == old(txPointer) && rxPointer == old(rxPointer)
        && bytesLeft == old(bytesLeft) && dataRegister == old(dataRegister) && rxInterrupt == old(rxInterrupt))
    {
      if size != 0 {
        txPointer, rxPointer, bytesLeft := txBuffer, rxBuffer, size;
        dataRegister, rxInterrupt := memory[txBuffer], true;
      }
    }

    /** The receive interrupt: the byte in the data register has gone to the slave and
        `answer` has come back. */
    method ReceiveInterrupt(answer: bv8, ghost start: Bytes, ghost tx: nat, ghost rx: nat, ghost size: nat,
                            ghost answers: Bytes, ghost received: Bytes)
      requires Exchanging(start, tx, rx, size, answers, received) && |answers| < size
      modifies this, memory
      ensures Exchanging(start, tx, rx, size, answers + [answer], received + [old(dataRegister)])
    {
      if |answers| > 0 {
        LaterAnswersDoNotMatter(start, tx, rx, answers, [answer], |answers|);
      }
      memory[rxPointer] := answer;
      rxPointer, bytesLeft := rxPointer + 1, bytesLeft - 1;
      if bytesLeft != 0 {
        txPointer := txPointer + 1;
        dataRegister := memory[txPointer];
      } else {
        rxInterrupt := false;
      }
    }

    /** When no bytes are left the receive buffer holds the slave's answers, nothing else
        has changed, and with one buffer or separate ones the slave has the bytes that
        were there at the start. */
    lemma ExchangeDone(start: Bytes, tx: nat, rx: nat, size: nat, answers: Bytes, received: Bytes)
      requires Exchanging(start, tx, rx, size, answers, received) && bytesLeft == 0
      ensures memory[..] == start[..rx] + answers + start[rx + size..] && !rxInterrupt
      ensures !(tx < rx < tx + size) ==> received == start[tx..tx + size]
    {
      ExchangeRightIff(start, tx, rx, size);
      assert |answers| == size;
      assert !(tx < rx < tx + size) ==> SentRight(start, tx, answers, After(start, tx, rx, answers, size));
    }
  }
}
