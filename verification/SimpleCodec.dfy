/** The framing codec: a decoder that is replayed on every chunk and aborts on short
    input, and the encoder beside it. */
module SimpleCodec {
  import opened Buffers
  import opened VarInt

  datatype ReplayState = FLAG | LENGTH | BODY

  type Message = seq<Byte>

  /** What survives between two chunks, apart from the unread bytes. */
  datatype Config = Config(state: ReplayState, flag: Byte, length: UInt64)

  /** What one pass over the input leaves behind. */
  datatype Decoded = Decoded(config: Config, messages: seq<Message>, unread: seq<Byte>)

  /** The largest length that fits the signed request of ReadByteBuf. */
  const MAX_BODY: nat := 0x8000_0000_0000_0000

  /** One turn of the decode loop; None is the abort on short input. */
  function Turn(c: Config, bs: seq<Byte>): Option<Decoded> {
    match c.state
    case FLAG =>
      if |bs| < 1 then None
      else if bs[0] == 0 then Some(Decoded(c.(flag := 0), [], bs[1..]))
      else Some(Decoded(c.(state := LENGTH, flag := bs[0]), [], bs[1..]))
    case LENGTH =>
      var w := Width(c.flag);
      if |bs| < w then None
      else Some(Decoded(c.(state := BODY, length := HeaderValue(c.flag, bs[..w])), [], bs[w..]))
    case BODY =>
      if c.length >= MAX_BODY || |bs| < c.length then None
      else Some(Decoded(c.(state := FLAG), [bs[..c.length]], bs[c.length..]))
  }

  /** With the unread bytes, this decreases at every turn. */
  function StateRank(s: ReplayState): nat {
    match s
    case FLAG => 0
    case BODY => 1
    case LENGTH => 2
  }

  /** The decode loop run to its abort. */
  function Decode(c: Config, bs: seq<Byte>): Decoded
    decreases |bs|, StateRank(c.state)
  {
    match Turn(c, bs)
    case None => Decoded(c, [], bs)
    case Some(t) => var r := Decode(t.config, t.unread); r.(messages := t.messages + r.messages)
  }

  /** Why the loop terminates. */
  lemma TurnDecreases(c: Config, bs: seq<Byte>)
    ensures match Turn(c, bs)
            case None => true
            case Some(t) => |t.unread| < |bs| || (|t.unread| == |bs| && StateRank(t.config.state) < StateRank(c.state))
  {
  }

  /** The loop always ends by a short read. */
  lemma {:induction false} DecodeEndsShort(c: Config, bs: seq<Byte>)
    ensures Turn(Decode(c, bs).config, Decode(c, bs).unread) == None
    decreases |bs|, StateRank(c.state)
  {
    if Turn(c, bs).Some? {
      var t := Turn(c, bs).value;
      DecodeEndsShort(t.config, t.unread);
    }
  }

  /** What comes out after the messages that came out before. */
  function After(done: seq<Message>, r: Decoded): Decoded {
    r.(messages := done + r.messages)
  }

  lemma TurnAndAfter(c: Config, bs: seq<Byte>, done: seq<Message>)
    requires Turn(c, bs).Some?
    ensures var t := Turn(c, bs).value;
            After(done, Decode(c, bs)) == After(done + t.messages, Decode(t.config, t.unread))
  {
    var t := Turn(c, bs).value;
    var rest := Decode(t.config, t.unread).messages;
    assert done + (t.messages + rest) == done + t.messages + rest;
  }

  lemma NothingAfter(c: Config, bs: seq<Byte>, done: seq<Message>)
    requires Turn(c, bs) == None
    ensures After(done, Decode(c, bs)) == Decoded(c, done, bs)
  {
    assert done + [] == done;
  }

  /** The wire form of one message. */
  function Encode(m: Message): seq<Byte>
    requires |m| < 0x1_0000_0000_0000_0000
  {
    VarIntEncode(|m|) + m
  }

  class SimpleCodec {
    // embedded from ReplayDecoder
    var inBuf: ByteBuf
    var state: ReplayState
    // own fields
    var flag: Byte
    var length: UInt64
    var out: Message

    ghost predicate Valid()
      reads this, inBuf
    {
      inBuf.Valid()
    }

    ghost function Current(): Config
      reads this
    {
      Config(state, flag, length)
    }

    ghost function Unread(): seq<Byte>
      requires Valid()
      reads this, inBuf
    {
      inBuf.Unread()
    }

    /** A new codec that has been added to a pipeline. */
    constructor ()
      ensures Valid() && fresh(inBuf)
      ensures Current() == Config(FLAG, 0, 0) && Unread() == []
    {
      inBuf := new ByteBuf([]);
      state, flag, length, out := FLAG, 0, 0, [];
    }

    /** Moves to another state; a buffer that holds much more than it has to offer is
        compacted in place, which nobody can observe. */
    method Checkpoint(s: ReplayState)
      requires Valid()
      modifies this`state, inBuf
      ensures Valid() && state == s && Unread() == old(Unread())
    {
      state := s;
      if inBuf.cap - |inBuf.Unread()| > 0x10_0000 {
        var bs := inBuf.Unread();
        inBuf.Reset();
        inBuf.WriteBytes(bs);
      }
    }

    /** One turn of the loop below; false is the abort on short input. */
    method DecodeTurn(queue: Queue<Message>) returns (ok: bool)
      requires Valid()
      modifies this`state, this`flag, this`length, this`out, inBuf, queue
      ensures Valid()
      ensures match old(Turn(Current(), Unread()))
              case None =>
                && !ok && Current() == old(Current())
                && Unread() == old(Unread()) && queue.Contents() == old(queue.Contents())
              case Some(t) =>
                && ok && Current() == t.config && Unread() == t.unread
                && queue.Contents() == old(queue.Contents()) + t.messages
    {
      match state {
      case FLAG =>
        var b := inBuf.ReadBytes(1);
        if b == None { return false; }
        flag := b.value[0];
        if flag != 0 { Checkpoint(LENGTH); }
      case LENGTH =>
        var v := VarIntDecode(flag, inBuf);
        if v == None { return false; }
        length := v.value;
        Checkpoint(BODY);
      case BODY =>
        // the request is the length as a signed 64-bit number
        var body := inBuf.ReadBytes(if length < MAX_BODY then length else length - 2 * MAX_BODY);
        if body == None { return false; }
        out := body.value;
        queue.Push(out);
        Checkpoint(FLAG);
      }
      ok := true;
    }

    /** The loop never ends by itself: it stops where the source aborts. */
    method DecodeLoop(queue: Queue<Message>)
      requires Valid()
      modifies this`state, this`flag, this`length, this`out, inBuf, queue
      ensures Valid()
      ensures var r := old(Decode(Current(), Unread()));
              Current() == r.config && Unread() == r.unread && queue.Contents() == old(queue.Contents()) + r.messages
    {
      ghost var done: seq<Message> := [];
      ghost var goal := Decode(Current(), Unread());
      var ok := true;
      assert After([], goal) == goal;
      while ok
        invariant Valid() && queue.Contents() == old(queue.Contents()) + done
        invariant goal == After(done, Decode(Current(), Unread()))
        invariant !ok ==> Turn(Current(), Unread()) == None
        decreases ok, |Unread()|, StateRank(state)
      {
        ghost var c, bs := Current(), Unread();
        TurnDecreases(c, bs);
        ok := DecodeTurn(queue);
        if Turn(c, bs).Some? {
          TurnAndAfter(c, bs, done);
          Regroup(old(queue.Contents()), done, Turn(c, bs).value.messages);
          done := done + Turn(c, bs).value.messages;
        }
      }
      NothingAfter(Current(), Unread(), done);
    }

    static lemma Regroup(a: seq<Message>, b: seq<Message>, c: seq<Message>)
      ensures a + b + c == a + (b + c)
    {
    }

    /** Accumulates the chunk, decodes what is complete, and fires the messages. */
    method Read(chunk: seq<Byte>) returns (fired: seq<Message>)
      requires Valid()
      modifies this, inBuf
      ensures Valid() && inBuf == old(inBuf)
      ensures var r := old(Decode(Current(), Unread() + chunk));
              Current() == r.config && Unread() == r.unread && fired == r.messages
      ensures Turn(Current(), Unread()) == None
    {
      DecodeEndsShort(Current(), Unread() + chunk);
      inBuf.WriteBytes(chunk);
      var queue := new Queue<Message>();
      DecodeLoop(queue);
      fired := FireAll(queue);
    }

    /** Pops and fires until the queue is empty. */
    static method FireAll(queue: Queue<Message>) returns (fired: seq<Message>)
      modifies queue
      ensures fired == old(queue.Contents())
    {
      fired := [];
      ghost var all := queue.Contents();
      var elem := queue.Pop();
      while elem != None
        invariant all == fired + (if elem == None then [] else [elem.value] + queue.Contents())
        decreases |queue.Contents()|, elem != None
      {
        fired := fired + [elem.value];
        elem := queue.Pop();
      }
      assert all == fired + [];
    }

    /** Hands the wire form of the message to the next outbound handler. */
    method Write(m: Message) returns (wire: seq<Byte>)
      requires |m| < 0x1_0000_0000_0000_0000
      ensures wire == Encode(m)
    {
      wire := VarIntEncode(|m|) + m;
    }
  }
}
