/** Where Snappy's bytes come from, piece by piece, and where they go. */
module SnappySource {
  import opened Bytes

  // Where bytes come from.  Peek offers a piece of what is left, of whatever size the source
  // likes, but never an empty one before the end.
  class Source {
    var rest: seq<byte>

    constructor (bytes: seq<byte>)
      ensures rest == bytes
    {
      rest := bytes;
    }

    method Peek() returns (piece: seq<byte>)
      ensures piece <= rest
      ensures piece == [] <==> rest == []
    {
      var n :| 0 <= n <= |rest| && (n == 0 <==> rest == []) by {
        assert |rest| <= |rest| && (|rest| == 0 <==> rest == []);
      }
      piece := rest[..n];
    }

    method Skip(n: nat)
      requires n <= |rest|
      modifies this
      ensures rest == old(rest)[n..]
    {
      rest := rest[n..];
    }
  }

  // Where bytes go.
  class Sink {
    var written: seq<byte>

    constructor ()
      ensures written == []
    {
      written := [];
    }

    method Append(bytes: seq<byte>)
      modifies this
      ensures written == old(written) + bytes
    {
      written := written + bytes;
    }
  }
}
