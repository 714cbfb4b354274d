/**
 The buffered connection of the Zigurat wire client (client/zigurat.c: rd, wr, wr_now, flush_out,
 skip, lost, give_turn, take_turn and dial). The socket is a script of what each call to it will do,
 short transfers and interruptions included; when the script runs out the socket moves all it can.
 */
module Connections {
  type Octet = v: int | 0 <= v < 256

  /** What one call to recv or send does. */
  datatype Event = Moved(count: nat) | Interrupted | Closed | Failed

  const OUT_SIZE: nat := 1024
  const IN_SIZE: nat := 8192
  const PAIL: nat := 512

  /** Nothing in the script ends the connection. */
  ghost predicate Calm(script: seq<Event>) {
    forall i :: 0 <= i < |script| ==> script[i].Moved? || script[i].Interrupted?
  }

  function Least(a: int, b: int): int {
    if a < b then a else b
  }

  class Conn {
    var open: bool
    var serialised: bool
    var held: bool
    const out: array<Octet>
    var nout: nat
    const input: array<Octet>
    var nin: nat
    var pin: nat
    /** The network: what the socket will do, and what the server has still to send. */
    var script: seq<Event>
    var coming: seq<Octet>
    /**
     Since the connection was dialled: bytes given to wr, bytes the socket took, bytes handed to
     callers, bytes the server sends.
     */
    ghost var written: seq<Octet>
    ghost var sent: seq<Octet>
    ghost var delivered: seq<Octet>
    ghost var stream: seq<Octet>

    ghost predicate Shaped()
      reads this
    {
      && out.Length == OUT_SIZE && input.Length == IN_SIZE && out != input
      && nout <= OUT_SIZE && pin <= nin <= IN_SIZE && (held ==> serialised)
    }

    /** What the server has sent or will send and no caller has seen. */
    ghost function Unread(): seq<Octet>
      reads this, input
      requires Shaped()
    {
      input[pin..nin] + coming
    }

    /**
     Sent and buffered is what was written; delivered and unread is what the server sends. A
     connection that is gone has sent and delivered some of it, in order, and no more.
     */
    ghost predicate Valid()
      reads this, out, input
    {
      && Shaped()
      && if open then delivered + Unread() == stream && sent + out[..nout] == written
         else delivered <= stream && sent <= written && nin == pin == 0
    }

    /** Everything but `bytes` has been sent, and nothing is buffered. */
    ghost predicate Sending(bytes: seq<Octet>)
      reads this, out, input
    {
      Shaped() && open && nout == 0 && delivered + Unread() == stream && sent + bytes == written
    }

    /** What reading does besides deliver: nothing is written, and the turn goes only with the connection. */
    twostate predicate OnlyReads(ok: bool)
      reads this, out, input
    {
      && Valid() && written == old(written) && serialised == old(serialised)
      && (ok ==> open && held == old(held)) && (!ok ==> !open && (old(open) ==> !held))
      && (!old(open) ==> !ok && held == old(held)) && (old(Calm(script)) ==> Calm(script))
    }

    /** What writing does besides add to what was written: nothing is read. */
    twostate predicate OnlyWrites(ok: bool)
      reads this, out, input
    {
      && Valid() && serialised == old(serialised)
      && (ok ==> open && held == old(held) && old(Shaped()) && Unread() == old(Unread()))
      && (!ok ==> !open && (old(open) ==> !held))
      && (!old(open) ==> !ok && held == old(held) && written == old(written)) && (old(Calm(script)) ==>
        Calm(script) && (old(open) ==> ok))
    }

    constructor ()
      ensures Valid() && !open && !held && !serialised && fresh(out) && fresh(input)
    {
      open, serialised, held, nout, nin, pin := false, false, false, 0, 0, 0;
      out, input := new Octet[OUT_SIZE], new Octet[IN_SIZE];
      script, coming, written, sent, delivered, stream := [], [], [], [], [], [];
    }

    // ---- turns --------------------------------------------------------------------------------------

    /** The lock is granted at once, after some tries, or not in time. */
    method TakeTurn(granted: bool) returns (ok: bool)
      requires Shaped()
      modifies this`held
      ensures ok <==> !serialised || old(held) || granted
      ensures held == (old(held) || (serialised && granted))
    {
      if !serialised || held { return true; }
      if granted { held := true; }
      ok := granted;
    }

    method GiveTurn()
      requires Shaped()
      modifies this`held
      ensures !held
    {
      if serialised && held { held := false; }
    }

    /** A failed transfer ends the connection, its turn with it. */
    method Lost()
      requires Shaped() && delivered <= stream && sent <= written
      modifies this`open, this`nin, this`pin, this`held
      ensures Valid() && !open && !held
    {
      open := false;
      nin, pin := 0, 0;
      GiveTurn();
    }

    // ---- the socket -------------------------------------------------------------------------------------

    method NextEvent() returns (e: Event)
      modifies this`script
      ensures old(script) == [] ==> script == [] && e == Moved(IN_SIZE)
      ensures old(script) != [] ==> script == old(script)[1..] && e == old(script)[0]
      ensures old(Calm(script)) ==> Calm(script) && (e.Moved? || e.Interrupted?)
    {
      if script == [] { return Moved(IN_SIZE); }
      e := script[0];
      script := script[1..];
    }

    /** recv into the empty buffer: never called with anything of ours unsent. */
    method Receive() returns (e: Event)
      requires Valid() && open && nout == 0 && nin == pin == 0
      modifies this`script, this`coming, this`nin, input
      ensures Valid() && pin == 0 && Unread() == old(Unread())
      ensures e.Moved? ==> nin > 0
      ensures !e.Moved? ==> nin == 0
      ensures |script| <= old(|script|) && (e.Interrupted? ==> |script| < old(|script|))
      ensures old(Calm(script)) ==> Calm(script) && (old(coming) != [] ==> e.Moved? || e.Interrupted?)
    {
      e := NextEvent();
      if !e.Moved? { return; }
      if coming == [] { return Closed; }
      Arrive(Least(Least(if e.count == 0 then 1 else e.count, IN_SIZE), |coming|));
    }

    /** `k` bytes of what is coming, now in the buffer. */
    method Arrive(k: nat)
      requires Valid() && open && nin == pin == 0 && 0 < k <= IN_SIZE && k <= |coming|
      modifies this`coming, this`nin, input
      ensures Valid() && nin == k && Unread() == old(Unread())
    {
      assert Unread() == coming;
      forall i | 0 <= i < k { input[i] := coming[i]; }
      nin := k;
      assert input[0..nin] == coming[..k];
      assert coming == coming[..k] + coming[k..];
      coming := coming[k..];
    }

    /** Bytes from the buffer of those read ahead. */
    method TakeBuffered(want: nat) returns (got: seq<Octet>)
      requires Valid() && pin < nin && want > 0
      modifies this`pin, this`delivered
      ensures Valid() && 0 < |got| <= want && old(Unread()) == got + Unread() && delivered == old(delivered) + got
    {
      var take := Least(nin - pin, want);
      got := input[pin..pin + take];
      assert input[pin..nin] == got + input[pin + take..nin];
      ghost var rest := input[pin + take..nin] + coming;
      assert Unread() == got + rest;
      assert delivered + (got + rest) == (delivered + got) + rest;
      pin, delivered := pin + take, delivered + got;
      assert Unread() == rest;
    }

    /** With nothing in hand: what is unsent goes out, then the socket is asked. */
    method Refill() returns (ok: bool)
      requires Valid() && open && pin == nin
      modifies this`nout, this`script, this`sent, this`open, this`nin, this`pin, this`held, this`coming, input
      ensures Valid()
      ensures ok ==> open && held == old(held) && Unread() == old(Unread())
      ensures ok ==> |script| < old(|script|) || (|script| == old(|script|) && pin < nin)
      ensures !ok ==> !open && !held
      ensures old(Calm(script)) ==> Calm(script) && (old(Unread()) != [] ==> ok)
    {
      ok := Flush();
      if !ok { return; }
      ghost var unread := Unread();
      assert input[pin..nin] == [];
      nin, pin := 0, 0;
      assert unread == coming == Unread();
      var e := Receive();
      if e.Closed? || e.Failed? {
        Lost();
        ok := false;
      }
    }

    /** rd: exactly `n` bytes, the next unread ones, or the connection is lost. */
    method Read(n: nat) returns (ok: bool, got: seq<Octet>)
      requires Valid()
      modifies this`nout, this`script, this`sent, this`open, this`nin, this`pin, this`held, this`coming, input,
          this`delivered
      ensures Valid()
      ensures ok ==> open && held == old(held) && |got| == n && old(Unread()) == got + Unread()
      ensures ok ==> delivered == old(delivered) + got
      ensures !ok ==> !open && (old(open) ==> !held)
      ensures !old(open) ==> !ok && held == old(held)
      ensures old(Calm(script)) ==> Calm(script) && (old(open) && n <= old(|Unread()|) ==> ok)
    {
      hide Calm;
      got := [];
      if !open { return false, []; }
      ghost var unread := Unread();
      while |got| < n
        invariant Valid() && open && |got| <= n && unread == got + Unread() && held == old(held)
        invariant delivered == old(delivered) + got
        invariant old(Calm(script)) ==> Calm(script)
        decreases n - |got|, |script|, pin == nin
      {
        if pin < nin {
          var more := TakeBuffered(n - |got|);
          assert got + (more + Unread()) == (got + more) + Unread();
          assert old(delivered) + (got + more) == (old(delivered) + got) + more;
          got := got + more;
        } else {
          ok := Refill();
          if !ok { return false, []; }
        }
      }
      ok := true;
    }

    /** wr_now: all of `bytes` on the wire, or the connection is lost. */
    method WriteNow(bytes: seq<Octet>) returns (ok: bool)
      requires Sending(bytes)
      modifies this`script, this`sent, this`open, this`nin, this`pin, this`held
      ensures Valid() && |script| <= old(|script|)
      ensures ok ==> open && nout == 0 && held == old(held) && sent == written && nin == old(nin) && pin == old(pin)
      ensures !ok ==> !open && !held
      ensures old(Calm(script)) ==> Calm(script) && ok
    {
      var done := 0;
      while done < |bytes|
        invariant 0 <= done <= |bytes| && |script| <= old(|script|)
        invariant open && held == old(held) && nin == old(nin) && pin == old(pin)
        invariant sent == old(sent) + bytes[..done]
        invariant old(Calm(script)) ==> Calm(script)
        decreases |bytes| - done, |script|
      {
        var e := NextEvent();
        assert written == old(sent) + bytes;
        if e.Closed? || e.Failed? {
          Lost();
          return false;
        }
        if e.Moved? {
          var k := Least(if e.count == 0 then 1 else e.count, |bytes| - done);
          assert bytes[..done + k] == bytes[..done] + bytes[done..done + k];
          sent := sent + bytes[done..done + k];
          done := done + k;
        }
      }
      assert bytes[..done] == bytes;
      assert sent + out[..0] == sent;
      ok := true;
    }

    /** flush_out: the buffer is emptied before it is sent, so that nothing is ever sent twice. */
    method Flush() returns (ok: bool)
      requires Valid() && open
      modifies this`nout, this`script, this`sent, this`open, this`nin, this`pin, this`held
      ensures Valid() && |script| <= old(|script|)
      ensures ok ==> open && nout == 0 && held == old(held) && sent == written && nin == old(nin) && pin == old(pin)
      ensures !ok ==> !open && !held
      ensures old(Calm(script)) ==> Calm(script) && ok
    {
      var n := nout;
      if n == 0 {
        assert sent + out[..0] == sent;
        return true;
      }
      nout := 0;
      ok := WriteNow(out[..n]);
    }

    /** wr: `bytes` follow what was written before; short ones wait in the buffer, long ones go at once. */
    method Write(bytes: seq<Octet>) returns (ok: bool)
      requires Valid()
      modifies this`nout, this`script, this`sent, this`written, this`open, this`nin, this`pin, this`held, out
      ensures Valid()
      ensures ok ==> open && held == old(held) && written == old(written) + bytes && Unread() == old(Unread())
      ensures !ok ==> !open && (old(open) ==> !held)
      ensures !old(open) ==> !ok && held == old(held) && written == old(written)
      ensures old(Calm(script)) ==> Calm(script) && (old(open) ==> ok)
    {
      if !open { return false; }
      if |bytes| >= OUT_SIZE {
        ok := Flush();
        if !ok { return; }
        written := written + bytes;
        ok := WriteNow(bytes);
        return;
      }
      if nout + |bytes| > OUT_SIZE {
        ok := Flush();
        if !ok { return; }
      }
      Append(bytes);
      ok := true;
    }

    /** Bytes that fit, put at the end of the buffer. */
    method Append(bytes: seq<Octet>)
      requires Valid() && open && nout + |bytes| <= OUT_SIZE
      modifies this`nout, this`written, out
      ensures Valid() && written == old(written) + bytes && Unread() == old(Unread())
    {
      ghost var before := out[..nout];
      forall i | 0 <= i < |bytes| { out[nout + i] := bytes[i]; }
      assert out[..nout + |bytes|] == before + bytes;
      assert sent + (before + bytes) == (sent + before) + bytes;
      nout, written := nout + |bytes|, written + bytes;
    }

    /** skip: the next `n` bytes, unwanted, a pailful at a time. */
    method Skip(n: nat) returns (ok: bool)
      requires Valid()
      modifies this`nout, this`script, this`sent, this`open, this`nin, this`pin, this`held, this`coming, input,
          this`delivered
      ensures Valid()
      ensures ok ==> (n > 0 ==> open) && open == old(open) && held == old(held)
      ensures ok ==> n <= old(|Unread()|) && Unread() == old(Unread())[n..]
      ensures !ok ==> !open && (old(open) ==> !held)
      ensures !old(open) ==> held == old(held)
      ensures old(Calm(script)) ==> Calm(script) && (old(open) && n <= old(|Unread()|) ==> ok)
    {
      hide Calm;
      var left := n;
      ghost var unread := Unread();
      while left > 0
        invariant Valid() && 0 <= left <= n && n - left <= |unread| && Unread() == unread[n - left..]
        invariant held == old(held)
        invariant open == old(open) && (left < n ==> open)
        invariant old(Calm(script)) ==> Calm(script)
      {
        var want := Least(left, PAIL);
        var got;
        ok, got := Read(want);
        if !ok { return; }
        assert unread[n - left..][want..] == unread[n - left + want..];
        assert (got + Unread())[want..] == Unread();
        left := left - want;
      }
      ok := true;
    }

    // ---- dialling -------------------------------------------------------------------------------------------

    /** Nothing is kept of a connection that was: its buffers, its turn and its record are empty. */
    method Reset(ghost server: seq<Octet>)
      requires Shaped()
      modifies this
      ensures Valid() && !open && !held && serialised == old(serialised) && stream == server
      ensures nout == 0 && nin == pin == 0 && written == [] && sent == [] && delivered == []
    {
      open := false;
      GiveTurn();
      nout := 0;
      nin, pin := 0, 0;
      written, sent, delivered := [], [], [];
      stream := server;
    }

    /** What a dial meets: nothing answers, or a server that will send `stream` over a socket of this script. */
    method Dial(answers: bool, server: seq<Octet>, network: seq<Event>) returns (ok: bool, greeting: seq<Octet>)
      requires Shaped()
      modifies this, input
      ensures Valid() && !held && serialised == old(serialised)
      ensures ok <==> open
      ensures ok ==> answers && stream == server && |greeting| == 8 && server == greeting + Unread()
      ensures written == [] && sent == [] && (ok ==> delivered == greeting && nout == 0)
      ensures answers && Calm(network) && |server| >= 8 ==> ok
    {
      hide Calm;
      Reset(server);
      if !answers { return false, []; }
      open, script, coming := true, network, server;
      assert Unread() == server;
      ok, greeting := Read(8);
      assert ok ==> |sent + out[..nout]| == 0;
    }
  }
}
