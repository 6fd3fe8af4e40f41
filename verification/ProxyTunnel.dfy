/** The output side of the proxy tunnel (networking/prox_tunnel.rs): a cursor buffer holds
    what the socket would not take. The TLS wrapper is foreign code; what it hands over to be
    sent, also while it is being flushed, is input here, as are the socket's answers. */
module ProxyTunnel {
  import opened Text

  /** `bun_io::StreamBuffer`: a growing list and the number of bytes already consumed. */
  datatype StreamBuffer = StreamBuffer(list: seq<Byte>, cursor: nat) {
    predicate Ok() { cursor <= |list| }

    function Slice(): seq<Byte>
      requires Ok()
    {
      list[cursor..]
    }
  }

  /** What the tunnel has been asked to send since it was started or adopted. `accepted`
      answers how many bytes the socket takes of a write; without a socket none are. */
  datatype Op =
    | WriteEncrypted(data: seq<Byte>, accepted: nat)
    | OnWritable(taken: nat, flushed: seq<Write>)
    | Attach
    | Detach

  datatype Write = Write(data: seq<Byte>, accepted: nat)

  datatype Tunnel = Tunnel(attached: bool, pending: seq<Byte>, sent: seq<Byte>)

  // ---------------------------------------------------------------- specification

  function Least(a: nat, b: nat): nat {
    if a < b then a else b
  }

  /** The abstract tunnel: bytes sent, then bytes waiting. */
  function WriteStep(t: Tunnel, w: Write): Tunnel {
    if t.pending != [] then t.(pending := t.pending + w.data)
    else
      var n := if t.attached then Least(w.accepted, |w.data|) else 0;
      t.(sent := t.sent + w.data[..n], pending := w.data[n..])
  }

  function WriteAll(t: Tunnel, ws: seq<Write>): Tunnel
    decreases |ws|
  {
    if ws == [] then t else WriteAll(WriteStep(t, ws[0]), ws[1..])
  }

  function FlushStep(t: Tunnel, taken: nat): Tunnel {
    var n := Least(taken, |t.pending|);
    t.(sent := t.sent + t.pending[..n], pending := t.pending[n..])
  }

  function Step(t: Tunnel, op: Op): Tunnel {
    match op
    case WriteEncrypted(data, accepted) => WriteStep(t, Write(data, accepted))
    case OnWritable(taken, flushed) => WriteAll(FlushStep(t, taken), flushed)
    case Attach => t.(attached := true)
    case Detach => t.(attached := false)
  }

  function DataOf(ws: seq<Write>): seq<Byte> {
    if ws == [] then [] else ws[0].data + DataOf(ws[1..])
  }

  function Encrypted(op: Op): seq<Byte> {
    match op
    case WriteEncrypted(data, _) => data
    case OnWritable(_, flushed) => DataOf(flushed)
    case _ => []
  }

  function Run(t: Tunnel, ops: seq<Op>): Tunnel
    decreases |ops|
  {
    if ops == [] then t else Run(Step(t, ops[0]), ops[1..])
  }

  function AllEncrypted(ops: seq<Op>): seq<Byte> {
    if ops == [] then [] else Encrypted(ops[0]) + AllEncrypted(ops[1..])
  }

  // ---------------------------------------------------------------- conservation

  lemma WriteStepKeeps(t: Tunnel, w: Write)
    ensures WriteStep(t, w).sent + WriteStep(t, w).pending == t.sent + t.pending + w.data
  {
    if t.pending == [] {
      var n := if t.attached then Least(w.accepted, |w.data|) else 0;
      assert w.data == w.data[..n] + w.data[n..];
    }
  }

  lemma {:induction false} WriteAllKeeps(t: Tunnel, ws: seq<Write>)
    ensures WriteAll(t, ws).sent + WriteAll(t, ws).pending == t.sent + t.pending + DataOf(ws)
    decreases |ws|
  {
    if ws != [] {
      WriteStepKeeps(t, ws[0]);
      WriteAllKeeps(WriteStep(t, ws[0]), ws[1..]);
      assert t.sent + t.pending + ws[0].data + DataOf(ws[1..]) == t.sent + t.pending + DataOf(ws);
    }
  }

  lemma FlushKeeps(t: Tunnel, taken: nat)
    ensures FlushStep(t, taken).sent + FlushStep(t, taken).pending == t.sent + t.pending
    ensures t.sent <= FlushStep(t, taken).sent
  {
    var n := Least(taken, |t.pending|);
    assert t.pending == t.pending[..n] + t.pending[n..];
    assert t.sent + t.pending[..n] + t.pending[n..] == t.sent + (t.pending[..n] + t.pending[n..]);
  }

  lemma StepKeeps(t: Tunnel, op: Op)
    ensures Step(t, op).sent + Step(t, op).pending == t.sent + t.pending + Encrypted(op)
    ensures t.sent <= Step(t, op).sent
  {
    hide WriteAll, DataOf, FlushStep;
    match op
    case WriteEncrypted(data, accepted) => WriteStepKeeps(t, Write(data, accepted));
    case OnWritable(taken, flushed) =>
      var u := FlushStep(t, taken);
      FlushKeeps(t, taken);
      WriteAllKeeps(u, flushed);
      SentGrows(u, flushed);
    case _ =>
  }

  lemma {:induction false} SentGrows(t: Tunnel, ws: seq<Write>)
    ensures t.sent <= WriteAll(t, ws).sent
    decreases |ws|
  {
    if ws != [] {
      SentGrows(WriteStep(t, ws[0]), ws[1..]);
    }
  }

  lemma Associative(a: seq<Byte>, b: seq<Byte>, c: seq<Byte>)
    ensures a + b + c == a + (b + c)
  {
  }

  lemma {:induction false} RunKeeps(t: Tunnel, ops: seq<Op>)
    ensures Run(t, ops).sent + Run(t, ops).pending == t.sent + t.pending + AllEncrypted(ops)
    decreases |ops|
  {
    hide Step, Encrypted;
    if ops != [] {
      StepKeeps(t, ops[0]);
      RunKeeps(Step(t, ops[0]), ops[1..]);
      Associative(t.sent + t.pending, Encrypted(ops[0]), AllEncrypted(ops[1..]));
    }
  }

  /** Since a start or an adoption, whatever mix of partial writes, buffered writes and
      re-entrant flushes happened: bytes sent followed by bytes still buffered are all the
      encrypted bytes in order. */
  lemma NothingLostOrReordered(attached: bool, ops: seq<Op>)
    ensures var t := Run(Tunnel(attached, [], []), ops);
            t.sent + t.pending == AllEncrypted(ops) && t.sent <= AllEncrypted(ops)
  {
    RunKeeps(Tunnel(attached, [], []), ops);
    var none: seq<Byte> := [];
    assert none + none + AllEncrypted(ops) == AllEncrypted(ops);
  }

  /** Over a pooled tunnel's two lives the bytes accounted for are all but those still
      buffered when it was adopted: nothing is lost exactly when the buffer was empty. */
  lemma AdoptionDropsTheBuffer(first: seq<Op>, second: seq<Op>)
    ensures var t, u := Run(Tunnel(true, [], []), first), Run(Tunnel(true, [], []), second);
            && t.sent + t.pending + u.sent + u.pending == AllEncrypted(first) + AllEncrypted(second)
            && (t.sent + u.sent + u.pending == AllEncrypted(first) + AllEncrypted(second) <==> t.pending == [])
  {
    NothingLostOrReordered(true, first);
    NothingLostOrReordered(true, second);
    var t, u := Run(Tunnel(true, [], []), first), Run(Tunnel(true, [], []), second);
    TwoLives(t.sent, t.pending, u.sent, u.pending);
  }

  /** A byte lost: the socket took none of a write, and the tunnel was then adopted. */
  lemma ByteLostAtAdoption(b: Byte)
    ensures var first := [WriteEncrypted([b], 0)];
            var t, u := Run(Tunnel(true, [], []), first), Run(Tunnel(true, [], []), []);
            && t.pending == [b]
            && t.sent + u.sent + u.pending == [] && AllEncrypted(first) == [b]
  {
    var op := WriteEncrypted([b], 0);
    assert [op][1..] == [];
    assert AllEncrypted([op]) == [b] + AllEncrypted([]);
    assert Run(Tunnel(true, [], []), [op]) == Run(Step(Tunnel(true, [], []), op), []);
  }

  lemma TwoLives(s1: seq<Byte>, p1: seq<Byte>, s2: seq<Byte>, p2: seq<Byte>)
    ensures s1 + p1 + s2 + p2 == (s1 + p1) + (s2 + p2)
    ensures s1 + s2 + p2 == (s1 + p1) + (s2 + p2) <==> p1 == []
  {
    assert |s1 + s2 + p2| == |(s1 + p1) + (s2 + p2)| - |p1|;
  }

  // ---------------------------------------------------------------- how much is sent

  /** A write sends what the socket takes of it, but nothing while bytes wait or there is no
      socket. */
  lemma WriteSends(t: Tunnel, data: seq<Byte>, accepted: nat)
    ensures var u := Step(t, WriteEncrypted(data, accepted));
            |u.sent| == |t.sent| + (if t.pending != [] || !t.attached then 0
                                    else if accepted < |data| then accepted else |data|)
            && u.attached == t.attached
  {
  }

  /** A writable socket is given all that waits, and sends what it takes. */
  lemma WritableSends(t: Tunnel, taken: nat)
    ensures var u := Step(t, OnWritable(taken, []));
            && |u.sent| == |t.sent| + (if taken < |t.pending| then taken else |t.pending|)
            && |u.pending| == |t.pending| - (if taken < |t.pending| then taken else |t.pending|)
            && u.attached == t.attached
  {
  }

  /** What the wrapper writes while it is flushed comes after that, write by write. */
  lemma {:induction false} FlushedAreWrites(t: Tunnel, taken: nat, ws: seq<Write>)
    ensures Step(t, OnWritable(taken, ws)) ==
            Run(Step(t, OnWritable(taken, [])), seq(|ws|, i requires 0 <= i < |ws| =>
                                                            WriteEncrypted(ws[i].data, ws[i].accepted)))
  {
    WritesOneByOne(FlushStep(t, taken), ws);
  }

  lemma {:induction false} WritesOneByOne(t: Tunnel, ws: seq<Write>)
    ensures WriteAll(t, ws) ==
            Run(t, seq(|ws|, i requires 0 <= i < |ws| => WriteEncrypted(ws[i].data, ws[i].accepted)))
    decreases |ws|
  {
    var ops := seq(|ws|, i requires 0 <= i < |ws| => WriteEncrypted(ws[i].data, ws[i].accepted));
    if ws != [] {
      var rest := ws[1..];
      assert ops[1..] == seq(|rest|, i requires 0 <= i < |rest| => WriteEncrypted(rest[i].data, rest[i].accepted));
      WritesOneByOne(WriteStep(t, ws[0]), rest);
      assert Write(ws[0].data, ws[0].accepted) == ws[0];
    }
  }

  lemma {:induction false} RunSnoc(t: Tunnel, ops: seq<Op>, op: Op)
    ensures Run(t, ops + [op]) == Step(Run(t, ops), op)
    decreases |ops|
  {
    if ops == [] {
      assert [] + [op] == [op] && [op][1..] == [];
    } else {
      assert (ops + [op])[0] == ops[0] && (ops + [op])[1..] == ops[1..] + [op];
      RunSnoc(Step(t, ops[0]), ops[1..], op);
    }
  }

  /** Once a writable socket takes all that waits, everything ever encrypted has been sent. */
  lemma WritableDrains(attached: bool, ops: seq<Op>, taken: nat)
    requires taken >= |Run(Tunnel(attached, [], []), ops).pending|
    ensures var u := Run(Tunnel(attached, [], []), ops + [OnWritable(taken, [])]);
            u.pending == [] && u.sent == AllEncrypted(ops)
  {
    var t := Run(Tunnel(attached, [], []), ops);
    NothingLostOrReordered(attached, ops);
    RunSnoc(Tunnel(attached, [], []), ops, OnWritable(taken, []));
    assert t.pending[..|t.pending|] == t.pending;
  }

  /** Attaching and detaching move no bytes. */
  lemma SocketComesAndGoes(t: Tunnel)
    ensures Step(t, Attach) == Tunnel(true, t.pending, t.sent)
    ensures Step(t, Detach) == Tunnel(false, t.pending, t.sent)
  {
  }

  // ---------------------------------------------------------------- the class

  class Connection {
    var attached: bool
    var writeBuffer: StreamBuffer
    /** What the socket has taken since the tunnel was started or adopted. */
    var sent: seq<Byte>

    ghost predicate Valid()
      reads this
    {
      writeBuffer.Ok()
    }

    ghost function View(): Tunnel
      reads this
      requires Valid()
    {
      Tunnel(attached, writeBuffer.Slice(), sent)
    }

    /** `start`. */
    constructor ()
      ensures Valid() && View() == Tunnel(true, [], [])
    {
      attached, writeBuffer, sent := true, StreamBuffer([], 0), [];
    }

    /** `adopt`: a pooled tunnel starts afresh on another socket. */
    method Adopt()
      modifies this
      ensures Valid() && View() == Tunnel(true, [], [])
    {
      writeBuffer := StreamBuffer([], 0);
      attached := true;
      sent := [];
    }

    method DetachSocket()
      requires Valid()
      modifies this`attached
      ensures Valid() && View() == Step(old(View()), Detach)
    {
      attached := false;
    }

    /** The socket takes some prefix of the data. */
    method SocketWrite(data: seq<Byte>, accepted: nat) returns (written: nat)
      modifies this`sent
      ensures written == Least(accepted, |data|) && sent == old(sent) + data[..written]
    {
      written := Least(accepted, |data|);
      sent := sent + data[..written];
    }

    method WriteEncryptedData(data: seq<Byte>, accepted: nat)
      requires Valid()
      modifies this
      ensures Valid() && View() == WriteStep(old(View()), Write(data, accepted))
    {
      if writeBuffer.cursor < |writeBuffer.list| {
        assert (writeBuffer.list + data)[writeBuffer.cursor..] == writeBuffer.list[writeBuffer.cursor..] + data;
        writeBuffer := writeBuffer.(list := writeBuffer.list + data);
        return;
      }
      var written := 0;
      if attached {
        written := SocketWrite(data, accepted);
      }
      var pending := data[written..];
      if pending != [] {
        assert (writeBuffer.list + pending)[writeBuffer.cursor..] == pending;
        writeBuffer := writeBuffer.(list := writeBuffer.list + pending);
      }
      assert data[..0] == [];
    }

    /** `on_writable`: send from the buffer, then let the wrapper flush, which writes again. */
    method Writable(taken: nat, flushed: seq<Write>)
      requires Valid()
      modifies this
      ensures Valid() && View() == Step(old(View()), OnWritable(taken, flushed))
    {
      var encoded := writeBuffer.Slice();
      ghost var t := FlushStep(View(), taken);
      if encoded != [] {
        var written := SocketWrite(encoded, taken);
        if written == |encoded| {
          writeBuffer := StreamBuffer([], 0);
        } else {
          writeBuffer := writeBuffer.(cursor := writeBuffer.cursor + written);
        }
      }
      assert View() == t;
      var i := 0;
      while i < |flushed|
        invariant 0 <= i <= |flushed| && Valid()
        invariant WriteAll(View(), flushed[i..]) == WriteAll(t, flushed)
      {
        assert flushed[i..][1..] == flushed[i + 1..];
        WriteEncryptedData(flushed[i].data, flushed[i].accepted);
        i := i + 1;
      }
    }
  }
}
