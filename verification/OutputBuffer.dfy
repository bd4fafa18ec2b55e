/** internal/recovery/process.go: the bounded capture of a child's output. */
module OutputBuffer {

  newtype byte = x: int | 0 <= x < 256

  const MAX_CAPTURED := 64 * 1024

  const TRUNCATED := "...(earlier output truncated)...\n"

  function Bytes(s: string): (b: seq<byte>)
    requires forall i :: 0 <= i < |s| ==> s[i] < 128 as char
    ensures |b| == |s| && forall i :: 0 <= i < |s| ==> b[i] as char == s[i]
  {
    seq(|s|, i requires 0 <= i < |s| => s[i] as byte)
  }

  /** The last n elements of a stream, or all of it. */
  function Tail(s: seq<byte>, n: nat): seq<byte> {
    if |s| <= n then s else s[|s| - n..]
  }

  /** Forgetting early what would be forgotten later changes nothing. */
  lemma KeepTail(s: seq<byte>, p: seq<byte>, n: nat)
    ensures var all := Tail(s, n) + p;
            && (if |all| > n then all[|all| - n..] else all) == Tail(s + p, n)
            && (|all| > n || |s| > n <==> |s + p| > n)
  {
    if |s| > n {
      var cut := |s| - n;
      assert Tail(s, n) + p == (s + p)[cut..];
      assert (s + p)[cut..][|p|..] == (s + p)[cut + |p|..];
    }
  }

  class Buffer {
    var buf: seq<byte>
    var truncated: bool
    /** Everything the child ever wrote. */
    ghost var written: seq<byte>

    ghost predicate Valid()
      reads this
    {
      buf == Tail(written, MAX_CAPTURED) && truncated == (|written| > MAX_CAPTURED)
    }

    constructor ()
      ensures Valid() && written == []
    {
      buf, truncated, written := [], false, [];
    }

    method Write(p: seq<byte>) returns (n: nat)
      requires Valid()
      modifies this
      ensures Valid() && written == old(written) + p && n == |p|
    {
      hide Tail;
      KeepTail(written, p, MAX_CAPTURED);
      written := written + p;
      buf := buf + p;
      if |buf| > MAX_CAPTURED {
        buf := buf[|buf| - MAX_CAPTURED..];
        truncated := true;
      }
      n := |p|;
    }

    method String() returns (s: seq<byte>)
      requires Valid()
      ensures |written| <= 65536 ==> s == written
      ensures |written| > 65536 ==>
                s == Bytes("...(earlier output truncated)...\n") + written[|written| - 65536..]
    {
      s := if truncated then Bytes(TRUNCATED) + buf else buf;
    }
  }
}
