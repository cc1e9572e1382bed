/** Byte streams as the archive code sees them: no seeking, reads of any length. */
module Streams {
  import opened Wrappers
  import opened Bytes

  /** A non-seekable stream: each read may return fewer bytes than asked for. */
  class Source {
    var rest: seq<u8>
    /** How many reads have failed. */
    ghost var faults: nat

    constructor (bytes: seq<u8>)
      ensures rest == bytes && faults == 0
    {
      rest, faults := bytes, 0;
    }

    /** A read may fail, whatever the stream holds. */
    method Fails() returns (fails: bool)
      modifies this`faults
      ensures faults == if fails then old(faults) + 1 else old(faults)
    {
      fails := *;
      faults := if fails then faults + 1 else faults;
    }

    method Read(max: nat) returns (buf: seq<u8>)
      modifies this`rest
      ensures buf + rest == old(rest) && |buf| <= max
      ensures max > 0 && old(rest) != [] ==> buf != []
    {
      if max == 0 || rest == [] {
        return [];
      }
      var n :| 0 < n <= max && n <= |rest|;
      buf, rest := rest[..n], rest[n..];
    }

    /** `read_exact`. */
    method ReadExact(n: nat) returns (r: Option<seq<u8>>)
      modifies this`rest
      ensures n <= |old(rest)| ==> r == Some(old(rest)[..n]) && rest == old(rest)[n..]
      ensures n > |old(rest)| ==> r == None && rest == []
    {
      var got: seq<u8> := [];
      while |got| < n
        invariant |got| <= n
        invariant got + rest == old(rest)
        decreases n - |got|
      {
        var buf := Read(n - |got|);
        if buf == [] {
          return None;
        }
        assert got + (buf + rest) == got + buf + rest;
        got := got + buf;
      }
      r := Some(got);
    }

    /** A run of `read_u16`, `read_u32` and `read_u64`, by widths. */
    method ReadRun(widths: seq<nat>) returns (r: Option<seq<nat>>)
      modifies this`rest
      ensures match ReadFields(old(rest), widths)
              case None => r == None
              case Some((vs, tail)) => r == Some(vs) && rest == tail
    {
      var vals: seq<nat> := [];
      var i := 0;
      assert widths[0..] == widths;
      assert ReadFields(rest, widths).Some? ==>
             vals + ReadFields(rest, widths).value.0 == ReadFields(rest, widths).value.0;
      while i < |widths|
        invariant 0 <= i <= |widths|
        invariant ReadFields(old(rest), widths) ==
                  match ReadFields(rest, widths[i..])
                  case None => None
                  case Some((vs, tail)) => Some((vals + vs, tail))
      {
        assert widths[i..][1..] == widths[i + 1..];
        var field := ReadExact(widths[i]);
        if field == None {
          return None;
        }
        ghost var tail := ReadFields(rest, widths[i + 1..]);
        assert tail.Some? ==> vals + ([Value(field.value)] + tail.value.0)
                              == vals + [Value(field.value)] + tail.value.0;
        vals := vals + [Value(field.value)];
        i := i + 1;
      }
      assert vals + [] == vals;
      r := Some(vals);
    }
  }

  /** The receiving end of `write_all` calls. */
  class Sink {
    var bytes: seq<u8>

    constructor ()
      ensures bytes == []
    {
      bytes := [];
    }

    method WriteAll(b: seq<u8>)
      modifies this
      ensures bytes == old(bytes) + b
    {
      bytes := bytes + b;
    }
  }
}
