/** Polling output on the serial line. */
module Serial {
  /** Traffic with the UART: reads of the line status register with their THRE bit, and characters written. */
  datatype Traffic = Poll(ready: bool) | Send(c: char)

  ghost predicate ReadyFrom(ready: nat -> bool, t: nat) { exists u: nat :: t <= u && ready(u) }

  /** A transmitter that is ready again and again. */
  ghost predicate Fair(ready: nat -> bool) {
    forall t: nat :: ReadyFrom(ready, t)
  }

  function Sent(log: seq<Traffic>): string {
    if log == [] then ""
    else Sent(log[..|log| - 1]) + (match log[|log| - 1] case Send(c) => [c] case Poll(_) => "")
  }

  /** Every character was written right after a poll that showed the transmitter empty. */
  predicate Polite(log: seq<Traffic>) {
    forall i :: 0 <= i < |log| && log[i].Send? ==> i > 0 && log[i - 1] == Poll(true)
  }

  class Uart {
    const ready: nat -> bool
    var now: nat
    var log: seq<Traffic>

    constructor (r: nat -> bool)
      ensures ready == r && log == [] && now == 0
    {
      ready := r;
      now := 0;
      log := [];
    }

    /** __uart_can_send */
    method CanSend() returns (b: bool)
      modifies this
      ensures b == ready(old(now)) && now == old(now) + 1 && log == old(log) + [Poll(b)]
    {
      b := ready(now);
      now := now + 1;
      log := log + [Poll(b)];
    }

    /** __uart_send_char */
    method SendChar(c: char)
      modifies this
      ensures now == old(now) && log == old(log) + [Send(c)]
    {
      log := log + [Send(c)];
    }

    /** One turn of the polling loop. */
    method Offer(c: char) returns (ok: bool)
      requires Polite(log)
      modifies this
      ensures ok == ready(old(now)) && now == old(now) + 1 && old(log) <= log && Polite(log)
      ensures Sent(log) == old(Sent(log)) + (if ok then [c] else [])
    {
      SentSnoc(log, Poll(ready(now)));
      ok := CanSend();
      if ok {
        SentSnoc(log, Send(c));
        SendChar(c);
      }
    }

    /** uart_flush: sixteen NULs to push everything out. */
    method Flush()
      requires Fair(ready) && Polite(log)
      modifies this
      ensures Sent(log) == old(Sent(log)) + seq(16, _ => '\0') && Polite(log) && old(log) <= log
    {
      var n := Write(seq(16, _ => '\0'), 16);
    }

    /** __uart_write and uart_write: polling until everything is sent. */
    method Write(data: seq<char>, n: nat) returns (sz: nat)
      requires n <= |data| && Fair(ready) && Polite(log)
      modifies this
      ensures sz == n && Sent(log) == old(Sent(log)) + data[..n] && Polite(log) && old(log) <= log
    {
      sz := 0;
      ghost var target := NextReady(ready, now);
      assert data[..0] == [];
      while sz < n
        invariant sz <= n && Polite(log) && old(log) <= log
        invariant Sent(log) == old(Sent(log)) + data[..sz]
        invariant now <= target && ready(target)
        decreases n - sz, target - now
      {
        var ok := Offer(data[sz]);
        if ok {
          assert data[..sz + 1] == data[..sz] + [data[sz]];
          sz := sz + 1;
          target := NextReady(ready, now);
        }
      }
    }
  }

  lemma SentSnoc(log: seq<Traffic>, e: Traffic)
    ensures Sent(log + [e]) == Sent(log) + (match e case Send(c) => [c] case Poll(_) => "")
  {
    assert (log + [e])[..|log|] == log;
  }

  ghost function NextReady(ready: nat -> bool, t: nat): (u: nat)
    requires Fair(ready)
    ensures t <= u && ready(u)
  {
    assert ReadyFrom(ready, t);
    var u: nat :| t <= u && ready(u);
    u
  }
}
