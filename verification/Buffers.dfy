/**
  Appending rows to an output buffer.
 */
module Buffers {

  method Append(buf: array<nat>, pos: nat, x: nat)
    requires pos < buf.Length
    modifies buf
    ensures buf[..pos] == old(buf[..pos]) && buf[pos] == x
  {
    buf[pos] := x;
  }

  lemma {:induction false} SliceAppended(was: seq<nat>, now: seq<nat>, pos: nat, end: nat)
    requires pos <= end < |was| == |now| && now[..end] == was[..end]
    ensures now[pos..end + 1] == was[pos..end] + [now[end]] && now[..pos] == was[..pos]
  {
    assert now[pos..end] == now[..end][pos..end] && was[pos..end] == was[..end][pos..end];
    assert now[..pos] == now[..end][..pos] && was[..pos] == was[..end][..pos];
  }
}
