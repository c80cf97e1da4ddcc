/** Sending a response: the scatter list of src/server.c, advanced in place over partial writes. */
module SendBuffer {
  import opened Common

  const MAX_IOV: nat := 4

  // iov_base is an offset into the buffer it came from.
  datatype IoVec = IoVec(data: seq<byte>, base: nat, len: nat)

  predicate ValidIoVec(v: IoVec) {
    v.base + v.len <= |v.data|
  }

  function Bytes(v: IoVec): seq<byte>
    requires ValidIoVec(v)
  {
    v.data[v.base..v.base + v.len]
  }

  // What the vectors hold together.
  function Gathered(vs: seq<IoVec>): seq<byte>
    requires forall i :: 0 <= i < |vs| ==> ValidIoVec(vs[i])
  {
    if vs == [] then [] else Bytes(vs[0]) + Gathered(vs[1..])
  }

  // What writev reports: some bytes written, nothing possible yet, or an error.
  datatype Write = Wrote(n: nat) | Again | Failed

  datatype Outcome = AllSent | Partial | Error

  // How many bytes the socket takes before it blocks or fails.
  function Taken(writes: seq<Write>): nat {
    if writes == [] || !writes[0].Wrote? || writes[0].n == 0 then 0 else writes[0].n + Taken(writes[1..])
  }

  // A write fails behind nothing but writes that took something.
  predicate SendFails(writes: seq<Write>) {
    exists k :: 0 <= k < |writes| && writes[k] == Failed && forall i :: 0 <= i < k ==> Writes(writes[i])
  }

  predicate Writes(w: Write) {
    w.Wrote? && w.n > 0
  }

  class Response {
    const iov: array<IoVec>
    var iovCount: nat
    var iovIndex: nat
    ghost var sent: seq<byte>
    ghost var whole: seq<byte>

    ghost predicate Fits()
      reads this, iov
    {
      && iov.Length == MAX_IOV && iovIndex <= iovCount <= MAX_IOV
      && forall i :: iovIndex <= i < iovCount ==> ValidIoVec(iov[i]) && iov[i].len > 0
    }

    ghost function Remaining(): seq<byte>
      requires Fits()
      reads this, iov
    {
      Gathered(iov[iovIndex..iovCount])
    }

    // The bytes sent and the bytes to be sent are always the whole response.
    ghost predicate Valid()
      reads this, iov
    {
      Fits() && sent + Remaining() == whole
    }

    // The setup in start_send_http_response; a body without bytes gets no vector.
    constructor (header: seq<byte>, body: Option<seq<byte>>)
      requires header != []
      ensures Valid() && fresh(iov) && sent == []
      ensures whole == header + if body.None? then [] else body.value
    {
      iov := new IoVec[MAX_IOV];
      iovCount, iovIndex := 1, 0;
      sent, whole := [], header + if body.None? then [] else body.value;
      new;
      iov[0] := IoVec(header, 0, |header|);
      if body.Some? && |body.value| > 0 {
        iov[1] := IoVec(body.value, 0, |body.value|);
        iovCount := 2;
        assert Bytes(iov[1]) == body.value && Bytes(iov[0]) == header;
        GatheredTwo(iov[0], iov[1]);
        assert iov[0..2] == [iov[0], iov[1]];
      } else {
        assert Bytes(iov[0]) == header;
        GatheredOne(iov[0]);
        assert iov[0..1] == [iov[0]];
        assert header + [] == header;
      }
      assert Remaining() == whole && [] + whole == whole;
    }

    /** advance_iovec: the first `n` bytes are no longer to be sent. */
    method AdvanceIovec(n: nat) returns (all: bool)
      requires Fits() && n <= |Remaining()|
      modifies `iovIndex, iov
      ensures Fits() && Remaining() == old(Remaining())[n..]
      ensures all <==> Remaining() == []
    {
      ghost var bytes := Remaining();
      var left: nat := n;
      assert bytes[0..] == bytes;
      while iovIndex < iovCount && left > 0
        invariant Fits() && left <= n && left <= |Remaining()| && iovCount == old(iovCount)
        invariant Remaining()[left..] == bytes[n..]
        decreases iovCount - iovIndex, left
      {
        left := AdvanceOne(left);
      }
      assert left > 0 ==> iovIndex == iovCount;
      assert Remaining()[0..] == Remaining();
      GatheredNothing(iov[iovIndex..iovCount]);
      all := iovIndex >= iovCount;
    }

    // One turn: the first vector is used up or cut short.
    method AdvanceOne(n: nat) returns (left: nat)
      requires Fits() && iovIndex < iovCount && 0 < n <= |Remaining()|
      modifies `iovIndex, iov
      ensures Fits() && left <= n && left <= |Remaining()| && iovIndex >= old(iovIndex)
      ensures iovIndex > old(iovIndex) || left < n
      ensures Remaining()[left..] == old(Remaining())[n..]
    {
      var current := iov[iovIndex];
      ghost var vs := iov[iovIndex..iovCount];
      assert vs[0] == current && vs[1..] == iov[iovIndex + 1..iovCount];
      if n >= current.len {
        left := n - current.len;
        iovIndex := iovIndex + 1;
        Dropped(Bytes(current), Remaining(), n);
      } else {
        iov[iovIndex] := current.(base := current.base + n, len := current.len - n);
        left := 0;
        assert iov[iovIndex..iovCount][1..] == vs[1..];
        assert Bytes(iov[iovIndex]) == Bytes(current)[n..];
        Cut(Bytes(current), Gathered(vs[1..]), n);
        assert Remaining()[0..] == Remaining();
      }
    }

    /** connection_send_buffer: writes until everything is sent, the socket blocks, or it fails. */
    method Send(writes: seq<Write>) returns (outcome: Outcome)
      requires Valid()
      modifies `iovIndex, `sent, iov
      ensures Valid() && old(sent) <= sent
      ensures |sent| == if |old(sent)| + Taken(writes) < |whole| then |old(sent)| + Taken(writes) else |whole|
      ensures outcome == AllSent <==> sent == whole
      ensures outcome == Error <==> sent != whole && SendFails(writes)
    {
      hide Gathered;
      var k := 0;
      assert writes[0..] == writes;
      while iovIndex < iovCount && k < |writes|
        invariant Valid() && old(sent) <= sent && k <= |writes|
        invariant forall i :: 0 <= i < k ==> Writes(writes[i])
        invariant |sent| + Taken(writes[k..]) == |old(sent)| + Taken(writes)
        decreases |writes| - k
      {
        LeftToSend();
        TakenFrom(writes, k);
        match writes[k] {
        case Wrote(m) =>
          if m == 0 {
            return Partial;
          }
          var all := WriteSome(m);
          if all {
            return AllSent;
          }
        case Again => return Partial;
        case Failed => return Error;
        }
        k := k + 1;
      }
      LeftToSend();
      outcome := if iovIndex < iovCount then Partial else AllSent;
    }

    lemma LeftToSend()
      requires Valid()
      ensures iovIndex < iovCount <==> sent != whole
      ensures sent != whole ==> |sent| < |whole|
      ensures |sent| <= |whole|
    {
      GatheredNothing(iov[iovIndex..iovCount]);
    }

    // One writev that takes something, up to `m` bytes.
    method WriteSome(m: nat) returns (all: bool)
      requires Valid() && m > 0 && iovIndex < iovCount
      modifies `iovIndex, `sent, iov
      ensures Valid() && old(sent) <= sent && (all <==> sent == whole)
      ensures |sent| == if |old(sent)| + m < |whole| then |old(sent)| + m else |whole|
    {
      hide Gathered;
      ghost var bytes := Remaining();
      var n := WritevResult(m);
      all := AdvanceIovec(n);
      assert bytes == bytes[..n] + bytes[n..];
      Associative(sent, bytes[..n], bytes[n..]);
      sent := sent + bytes[..n];
      assert |sent| + |Remaining()| == |whole|;
      assert sent + [] == sent;
    }

    // writev never writes more than it is given.
    method WritevResult(m: nat) returns (n: nat)
      requires Fits()
      ensures n == if m < |Remaining()| then m else |Remaining()|
    {
      var total: nat := 0;
      var i := iovIndex;
      while i < iovCount
        invariant iovIndex <= i <= iovCount
        invariant total + |Gathered(iov[i..iovCount])| == |Remaining()|
      {
        assert iov[i..iovCount][1..] == iov[i + 1..iovCount];
        total := total + iov[i].len;
        i := i + 1;
      }
      assert iov[i..iovCount] == [];
      n := if m < total then m else total;
    }
  }

  lemma TakenFrom(writes: seq<Write>, k: nat)
    requires k < |writes|
    ensures Taken(writes[k..]) == if Writes(writes[k]) then writes[k].n + Taken(writes[k + 1..]) else 0
  {
    assert writes[k..][1..] == writes[k + 1..];
  }

  lemma GatheredOne(v: IoVec)
    requires ValidIoVec(v)
    ensures Gathered([v]) == Bytes(v)
  {
    assert [v][1..] == [] && Bytes(v) + [] == Bytes(v);
  }

  lemma GatheredTwo(v: IoVec, w: IoVec)
    requires ValidIoVec(v) && ValidIoVec(w)
    ensures Gathered([v, w]) == Bytes(v) + Bytes(w)
  {
    assert [v, w][1..] == [w];
    GatheredOne(w);
  }

  lemma GatheredNothing(vs: seq<IoVec>)
    requires forall i :: 0 <= i < |vs| ==> ValidIoVec(vs[i]) && vs[i].len > 0
    ensures Gathered(vs) == [] <==> vs == []
  {
  }

  lemma SomethingLeft(vs: seq<IoVec>)
    requires vs != [] && forall i :: 0 <= i < |vs| ==> ValidIoVec(vs[i]) && vs[i].len > 0
    ensures Gathered(vs) != []
  {
  }

  lemma Dropped(x: seq<byte>, y: seq<byte>, n: nat)
    requires |x| <= n <= |x| + |y|
    ensures (x + y)[n..] == y[n - |x|..]
  {
  }

  lemma Cut(x: seq<byte>, y: seq<byte>, n: nat)
    requires n <= |x|
    ensures (x + y)[n..] == x[n..] + y
  {
  }
}
