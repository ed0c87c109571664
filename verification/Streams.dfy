/** Input streams over finite data, and output streams. */
module Streams {
  import opened Option

  class Source<B> {
    const data: seq<B>
    var pos: nat

    /** Cleared by a read that does not get all that it asks for. */
    var good: bool

    ghost predicate Valid()
      reads this
    {
      pos <= |data|
    }

    /** What has not been read. */
    ghost function Rest(): seq<B>
      reads this
      requires Valid()
    {
      data[pos..]
    }

    constructor (data: seq<B>)
      ensures Valid() && this.data == data && Rest() == data && good
    {
      this.data := data;
      pos := 0;
      good := true;
    }

    /** Reads `n` elements, or as many as there are. */
    method Read(n: nat) returns (got: seq<B>)
      requires Valid()
      modifies this
      ensures Valid()
      ensures if old(good) && n <= old(|Rest()|)
              then got == old(Rest())[..n] && Rest() == old(Rest())[n..] && good
              else !good && if old(good) then got == old(Rest()) && Rest() == [] else got == [] && pos == old(pos)
    {
      if !good { return []; }
      if n <= |data| - pos {
        got := data[pos..pos + n];
        pos := pos + n;
      } else {
        got := data[pos..];
        pos := |data|;
        good := false;
      }
    }

    /** Reads one element if there is one at hand. */
    method ReadSome() returns (got: Option<B>)
      requires Valid()
      modifies this`pos
      ensures Valid()
      ensures if old(Rest()) == [] then got == None && pos == old(pos)
              else got == Some(old(Rest())[0]) && Rest() == old(Rest())[1..] && pos == old(pos) + 1
    {
      if pos == |data| { return None; }
      got := Some(data[pos]);
      pos := pos + 1;
    }
  }

  class Sink<B> {
    var written: seq<B>

    constructor ()
      ensures written == []
    {
      written := [];
    }

    method Write(data: seq<B>)
      modifies this
      ensures written == old(written) + data
    {
      written := written + data;
    }
  }
}
