/** What the codec needs from its surroundings: bytes, an optional value, the byte
    buffer it reads from and the queue it pushes decoded messages to. */
module Buffers {

  datatype Option<+T> = None | Some(value: T)

  type Byte = x: int | 0 <= x < 0x100
  type UInt64 = x: int | 0 <= x < 0x1_0000_0000_0000_0000

  /** The byte buffer, as a contract: a read either takes all the bytes it asks for, or
      aborts and leaves the buffer as it was.  How the capacity grows is not specified. */
  class ByteBuf {
    var data: seq<Byte>
    var reader: nat
    var cap: nat

    ghost predicate Valid()
      reads this
    {
      reader <= |data| <= cap
    }

    /** The readable bytes. */
    function Unread(): seq<Byte>
      requires Valid()
      reads this
    {
      data[reader..]
    }

    constructor (bs: seq<Byte>)
      ensures Valid() && Unread() == bs
    {
      data, reader, cap := bs, 0, |bs|;
    }

    method WriteBytes(bs: seq<Byte>)
      requires Valid()
      modifies this
      ensures Valid() && Unread() == old(Unread()) + bs
    {
      data := data + bs;
      cap := if cap < |data| then 2 * |data| else cap;
    }

    method Reset()
      requires Valid()
      modifies this
      ensures Valid() && Unread() == []
    {
      data, reader := [], 0;
    }

    /** None is the abort with ErrInsufficientSize. */
    method ReadBytes(n: int) returns (r: Option<seq<Byte>>)
      requires Valid()
      modifies this
      ensures Valid()
      ensures if 0 <= n <= |old(Unread())|
              then r == Some(old(Unread())[..n]) && Unread() == old(Unread())[n..]
              else r == None && Unread() == old(Unread())
    {
      if n < 0 || n > |data| - reader {
        return None;
      }
      r := Some(data[reader..][..n]);
      reader := reader + n;
    }
  }

  /** The FIFO queue, kept as the list it is: newest element first. */
  class Queue<T> {
    var l: seq<T>

    /** The elements, oldest first. */
    ghost function Contents(): seq<T>
      reads this
    {
      Reverse(l)
    }

    constructor ()
      ensures Contents() == []
    {
      l := [];
    }

    method Push(obj: T)
      modifies this
      ensures Contents() == old(Contents()) + [obj]
    {
      l := [obj] + l;
    }

    method Pop() returns (r: Option<T>)
      modifies this
      ensures if old(Contents()) == [] then r == None && Contents() == []
              else r == Some(old(Contents())[0]) && Contents() == old(Contents())[1..]
    {
      ReverseLast(l);
      if l == [] {
        return None;
      }
      r := Some(l[|l| - 1]);
      l := l[..|l| - 1];
    }
  }

  function Reverse<T>(s: seq<T>): (r: seq<T>)
    ensures |r| == |s|
  {
    if s == [] then [] else Reverse(s[1..]) + [s[0]]
  }

  lemma {:induction false} ReverseLast<T>(s: seq<T>)
    ensures s != [] ==> Reverse(s) == [s[|s| - 1]] + Reverse(s[..|s| - 1])
  {
    if |s| > 1 {
      ReverseLast(s[1..]);
      assert s[1..][..|s| - 2] == s[..|s| - 1][1..];
    }
  }
}
