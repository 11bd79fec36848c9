/** Pieces that several messages share: copying to an offset of a buffer, where what is before the
    offset is final and what is behind it stays as it was, and lists of eight-byte node
    identifiers, which the card message and the push message carry in the same form. */
module NodeCodec {
  import opened Bytes
  import opened Cards

  /** memcpy to an offset. */
  method Put(buf: array<byte>, ofs: nat, s: seq<byte>)
    requires ofs + |s| <= buf.Length
    modifies buf
    ensures buf[..] == old(buf[..ofs]) + s + old(buf[ofs + |s|..])
  {
    forall k | 0 <= k < |s| {
      buf[ofs + k] := s[k];
    }
    assert forall k :: ofs <= k < ofs + |s| ==> buf[k] == buf[ofs + (k - ofs)];
  }

  /** What is before the offset is final. */
  method Append(buf: array<byte>, ofs: nat, s: seq<byte>) returns (next: nat)
    requires ofs + |s| <= buf.Length
    modifies buf
    ensures next == ofs + |s| && buf[..next] == old(buf[..ofs]) + s
    ensures forall k :: next <= k < buf.Length ==> buf[k] == old(buf[k])
  {
    ghost var rest := buf[ofs + |s|..];
    Put(buf, ofs, s);
    next := ofs + |s|;
    assert buf[..next] == buf[..][..next];
    assert buf[next..] == buf[..][next..] == rest;
    forall k | next <= k < buf.Length
      ensures buf[k] == old(buf[k])
    {
      assert buf[k] == buf[next..][k - next] == rest[k - next];
    }
  }

  /** Bytes that are left as allocated. */
  lemma Skip(buf: array<byte>, ofs: nat, n: nat)
    requires ofs + n <= buf.Length && n <= 4 && forall k :: ofs <= k < ofs + n ==> buf[k] == 0
    ensures buf[..ofs + n] == buf[..ofs] + [0, 0, 0, 0][..n]
  {
  }

  lemma SliceOfSlice(s: seq<byte>, a: nat, b: nat, k: nat)
    requires a + k <= b <= |s|
    ensures s[a..b][..k] == s[a..a + k] && s[a..b][k..] == s[a + k..b]
  {
  }

  function EncodeNodes(ns: seq<NodeId>): (s: seq<byte>)
    ensures |s| == 8 * |ns|
    decreases |ns|
  {
    if ns == [] then [] else ns[0] + EncodeNodes(ns[1..])
  }

  function DecodeNodes(s: seq<byte>, n: nat): seq<NodeId>
    requires |s| == 8 * n
  {
    if n == 0 then [] else [s[..8]] + DecodeNodes(s[8..], n - 1)
  }

  lemma {:induction false} NodesBack(ns: seq<NodeId>)
    ensures DecodeNodes(EncodeNodes(ns), |ns|) == ns
    decreases |ns|
  {
    if ns != [] {
      var s := EncodeNodes(ns);
      assert s[..8] == ns[0] && s[8..] == EncodeNodes(ns[1..]);
      NodesBack(ns[1..]);
    }
  }

  lemma {:induction false} EncodeNodesSnoc(ns: seq<NodeId>, n: NodeId)
    ensures EncodeNodes(ns + [n]) == EncodeNodes(ns) + n
    decreases |ns|
  {
    if ns == [] {
      assert (ns + [n])[1..] == [];
      assert EncodeNodes([n]) == n + EncodeNodes([]);
    } else {
      assert (ns + [n])[1..] == ns[1..] + [n];
      EncodeNodesSnoc(ns[1..], n);
    }
  }

  lemma DecodeNodesEnd(s: seq<byte>)
    requires s == []
    ensures DecodeNodes(s, 0) == []
  {
  }

  lemma DecodeNodesStep(buf: seq<byte>, offset: nat, n: nat)
    requires n > 0 && offset + 8 * n <= |buf|
    ensures DecodeNodes(buf[offset..offset + 8 * n], n)
         == [buf[offset..offset + 8]] + DecodeNodes(buf[offset + 8..offset + 8 + 8 * (n - 1)], n - 1)
  {
    var s := buf[offset..offset + 8 * n];
    SliceOfSlice(buf, offset, offset + 8 * n, 8);
  }

  method ReadNodes(buf: seq<byte>, start: nat, n: nat) returns (nodes: seq<NodeId>)
    requires start + 8 * n <= |buf|
    ensures nodes == DecodeNodes(buf[start..start + 8 * n], n)
  {
    hide DecodeNodes;
    nodes := [];
    var offset := start;
    var i := 0;
    while i < n
      invariant 0 <= i <= n && offset == start + 8 * i
      invariant DecodeNodes(buf[start..start + 8 * n], n) == nodes + DecodeNodes(buf[offset..offset + 8 * (n - i)], n - i)
    {
      DecodeNodesStep(buf, offset, n - i);
      nodes := nodes + [buf[offset..offset + 8]];
      offset := offset + 8;
      i := i + 1;
    }
    DecodeNodesEnd(buf[offset..offset]);
  }
}
