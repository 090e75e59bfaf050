/** The gathering write that keeps at it until everything is written. */
module Writev {
  import opened Bytes

  /** What one `writev` call came to: bytes written (at most what was offered), a full pipe
      that was waited for, or an error. */
  datatype Call = Wrote(n: nat) | WouldBlock | Failed(errno: int)

  /** `More`: no result of the last call is known yet. */
  datatype Outcome = Written(total: nat) | Error(errno: int) | More

  /** The bytes behind the iovec cursor. */
  function Left(iov: seq<bytes>, p: nat): bytes
    requires p <= |iov|
  {
    Concat(iov[p..])
  }

  lemma LeftHead(iov: seq<bytes>, p: nat)
    requires p < |iov|
    ensures Left(iov, p) == iov[p] + Left(iov, p + 1)
  {
    assert iov[p..][1..] == iov[p + 1..];
  }

  lemma LeftOfTrimmed(iov: seq<bytes>, p: nat, n: nat)
    requires p < |iov| && n <= |iov[p]|
    ensures Left(iov[p := iov[p][n..]], p) == Left(iov, p)[n..]
  {
    var iov' := iov[p := iov[p][n..]];
    LeftHead(iov, p);
    LeftHead(iov', p);
    assert iov'[p + 1..] == iov[p + 1..];
  }

  /** The inner loop: move the cursor over `written` bytes. As long as something is left to
      write it stays within the vector, over empty buffers too. */
  method Advance(iov0: seq<bytes>, p0: nat, written: nat) returns (iov: seq<bytes>, p: nat)
    requires p0 <= |iov0| && written < |Left(iov0, p0)|
    ensures |iov| == |iov0| && p0 <= p < |iov|
    ensures Left(iov, p) == Left(iov0, p0)[written..]
  {
    iov, p := iov0, p0;
    var n: nat := written;
    while n > 0
      invariant n <= written && |iov| == |iov0| && p0 <= p <= |iov|
      invariant n < |Left(iov, p)| && Left(iov, p)[n..] == Left(iov0, p0)[written..]
      decreases |iov| - p, n
    {
      LeftHead(iov, p);
      if n < |iov[p]| {
        LeftOfTrimmed(iov, p, n);
        iov := iov[p := iov[p][n..]];
        n := 0;
      } else {
        assert Left(iov, p)[n..] == Left(iov, p + 1)[n - |iov[p]|..];
        n := n - |iov[p]|;
        p := p + 1;
      }
    }
    assert Left(iov, p)[0..] == Left(iov, p);
  }

  /** `Backend_writev`: whatever the calls come to, the bytes that left are the beginning of the
      buffers in order, and all of them when it returns. */
  method WriteAll(buffers: seq<bytes>, calls: seq<Call>) returns (r: Outcome, out: bytes)
    ensures out <= Concat(buffers)
    ensures r.Written? ==> out == Concat(buffers) && r.total == |out|
    ensures r.More? && Concat(buffers) != [] ==> out < Concat(buffers)
    ensures r.Error? ==> Failed(r.errno) in calls
    ensures r.More? ==> forall c :: c in calls ==> !c.Failed?
  {
    var total := |Concat(buffers)|;
    var iov, p, written := buffers, 0, 0;
    out := [];
    assert iov[0..] == buffers;
    for i := 0 to |calls|
      invariant |iov| == |buffers| && p <= |iov| && written == |out|
      invariant out + Left(iov, p) == Concat(buffers)
      invariant total > 0 ==> written < total
      invariant forall j :: 0 <= j < i ==> !calls[j].Failed?
    {
      match calls[i]
      case WouldBlock =>
      case Failed(e) => return Error(e), out;
      case Wrote(wish) =>
        var n := Min(wish, |Left(iov, p)|);
        ghost var left := Left(iov, p);
        out := out + Concat(iov[p..])[..n];
        written := written + n;
        assert left == left[..n] + left[n..];
        if written == total { return Written(total), out; }
        iov, p := Advance(iov, p, n);
    }
    return More, out;
  }
}
