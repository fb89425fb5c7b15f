/** server.go: handleConnection as the loop it is, while the producer goes on writing and
    other handlers set and delete the mark it waits for.  Transfer has the same steps
    interleaved with everything else. */
module Streaming {
  import Storage

  type Byte = Storage.Byte

  class Stream {
    const whole: seq<Byte>      // what the file will hold when it is released
    var file: seq<Byte>
    var released: bool
    var marks: set<string>
    var pos: nat
    var sent: seq<Byte>
    const message: string

    ghost predicate Valid()
      reads this
    {
      && file <= whole && (released ==> file == whole)
      && (message in marks || "/" + message in marks ==> released)
      && pos <= |file| && sent == file[..pos]
    }

    constructor (name: string, final: seq<Byte>)
      ensures Valid() && sent == [] && whole == final && message == name
    {
      whole, message, file, released, marks, pos, sent := final, name, [], false, {}, 0, [];
    }

    /** Anything the others do in between: append, release, set marks, delete marks. */
    method Others()
      requires Valid()
      modifies `file, `released, `marks
      ensures Valid() && old(file) <= file && (old(released) ==> released)
    {
      if !released {
        var n :| |file| <= n <= |whole|;
        file := whole[..n];
        if n == |whole| { released := *; }
      }
      if released { marks := *; }
    }

    /** io.CopyBuffer: read and write until a read finds the end of the file. */
    method CopyBuffer()
      requires Valid()
      modifies this
      ensures Valid() && old(sent) <= sent && (old(released) ==> released)
      ensures old(released) ==> sent == whole
    {
      Others();
      while pos < |file|
        invariant Valid() && old(sent) <= sent && (old(released) ==> released)
        decreases |whole| - pos
      {
        var n :| 0 < n <= |file| - pos;
        sent := sent + file[pos..pos + n];
        pos := pos + n;
        Others();
      }
    }

    /** The loop and the copy after it, for as many rounds as it is given.  Whatever the
        others do, it sends a prefix of the file; and once it has closed the connection it
        has sent all of it and its marks are gone. */
    method HandleConnection(rounds: nat) returns (closed: bool)
      requires Valid()
      modifies this
      ensures Valid() && old(sent) <= sent <= whole
      ensures closed ==> sent == whole && message !in marks && "/" + message !in marks
    {
      var writedone, round := false, 0;
      while !writedone && round < rounds
        invariant Valid() && old(sent) <= sent && (writedone ==> released)
        decreases rounds - round
      {
        CopyBuffer();
        Others();
        writedone := message in marks;
        if !writedone {
          writedone := "/" + message in marks;
        }
        round := round + 1;
      }
      if !writedone { return false; }
      CopyBuffer();
      marks := marks - {message} - {"/" + message};
      return true;
    }
  }
}
