/** What the codec promises about whole streams: cutting does not matter, encoding and
    decoding are inverse, and every byte is accounted for. */
module CodecTheorems {
  import opened Buffers
  import opened VarInt
  import opened SimpleCodec

  function Concat(chunks: seq<seq<Byte>>): seq<Byte> {
    if chunks == [] then [] else chunks[0] + Concat(chunks[1..])
  }

  /** A turn that succeeds on some input succeeds alike on any longer input. */
  lemma TurnMonotone(c: Config, a: seq<Byte>, b: seq<Byte>)
    requires Turn(c, a).Some?
    ensures var t := Turn(c, a).value; Turn(c, a + b) == Some(t.(unread := t.unread + b))
  {
    match c.state
    case FLAG =>
      assert (a + b)[1..] == a[1..] + b;
    case LENGTH =>
      var w := Width(c.flag);
      assert (a + b)[..w] == a[..w] && (a + b)[w..] == a[w..] + b;
    case BODY =>
      assert (a + b)[..c.length] == a[..c.length] && (a + b)[c.length..] == a[c.length..] + b;
  }

  /** Decoding a and then, from where that stopped, b is decoding both at once. */
  lemma {:induction false} DecodeSplit(c: Config, a: seq<Byte>, b: seq<Byte>)
    ensures var first := Decode(c, a);
            var second := Decode(first.config, first.unread + b);
            Decode(c, a + b) == second.(messages := first.messages + second.messages)
    decreases |a|, StateRank(c.state)
  {
    if Turn(c, a).Some? {
      var t := Turn(c, a).value;
      TurnMonotone(c, a, b);
      DecodeSplit(t.config, t.unread, b);
      var first := Decode(t.config, t.unread);
      var second := Decode(first.config, first.unread + b);
      assert t.messages + (first.messages + second.messages) == t.messages + first.messages + second.messages;
    } else {
      var second := Decode(c, a + b);
      assert [] + second.messages == second.messages;
    }
  }

  /** The read loop of a channel: every chunk that arrives is fired into the codec. */
  method ReadChunks(codec: SimpleCodec, chunks: seq<seq<Byte>>) returns (fired: seq<Message>)
    requires codec.Valid()
    requires Turn(codec.Current(), codec.Unread()) == None
    modifies codec, codec.inBuf
    ensures codec.Valid()
    ensures var r := old(Decode(codec.Current(), codec.Unread() + Concat(chunks)));
            codec.Current() == r.config && codec.Unread() == r.unread && fired == r.messages
  {
    ghost var c0, u0 := codec.Current(), codec.Unread();
    assert u0 + [] == u0;
    fired := [];
    for i := 0 to |chunks|
      invariant codec.Valid() && codec.inBuf == old(codec.inBuf)
      invariant Decode(c0, u0 + Concat(chunks[..i])) == Decoded(codec.Current(), fired, codec.Unread())
    {
      var more := codec.Read(chunks[i]);
      OneMoreChunk(c0, u0, chunks, i);
      fired := fired + more;
    }
    assert chunks[..|chunks|] == chunks;
  }

  lemma OneMoreChunk(c: Config, unread: seq<Byte>, chunks: seq<seq<Byte>>, i: nat)
    requires i < |chunks|
    ensures var first := Decode(c, unread + Concat(chunks[..i]));
            var second := Decode(first.config, first.unread + chunks[i]);
            Decode(c, unread + Concat(chunks[..i + 1])) == second.(messages := first.messages + second.messages)
  {
    ConcatSnoc(chunks, i);
    assert unread + (Concat(chunks[..i]) + chunks[i]) == unread + Concat(chunks[..i]) + chunks[i];
    DecodeSplit(c, unread + Concat(chunks[..i]), chunks[i]);
  }

  lemma {:induction false} ConcatSnoc(chunks: seq<seq<Byte>>, i: nat)
    requires i < |chunks|
    ensures Concat(chunks[..i + 1]) == Concat(chunks[..i]) + chunks[i]
  {
    if i == 0 {
      assert chunks[..1][1..] == [];
    } else {
      assert chunks[..i + 1][1..] == chunks[1..][..i] && chunks[..i][1..] == chunks[1..][..i - 1];
      ConcatSnoc(chunks[1..], i - 1);
    }
  }

  // ------------------------------------------------- one turn, and one message

  /** A body is taken whole, or the decoder waits: exactly if the length announced is 2^63 or
      more, which the signed request of the buffer cannot express, or more than is unread. */
  lemma BodyWaitsIff(c: Config, bs: seq<Byte>)
    requires c.state == BODY
    ensures Turn(c, bs) == None <==> c.length >= 0x8000_0000_0000_0000 || c.length > |bs|
    ensures Turn(c, bs).Some? ==>
              Turn(c, bs).value == Decoded(Config(FLAG, c.flag, c.length), [bs[..c.length]], bs[c.length..])
  {
  }

  /** A header waits for the bytes its marker announces: 2, 4 or 8, or none. */
  lemma HeaderWaitsIff(c: Config, bs: seq<Byte>)
    requires c.state == LENGTH
    ensures var w := match c.flag case 0xfd => 2 case 0xfe => 4 case 0xff => 8 case _ => 0;
            && (Turn(c, bs) == None <==> |bs| < w)
            && (|bs| >= w ==>
                  var t := Turn(c, bs).value;
                  t.config.state == BODY && t.config.flag == c.flag && t.messages == [] && t.unread == bs[w..])
  {
  }

  /** One message, written and read back, whatever follows it. */
  lemma DecodesMessage(c: Config, m: Message, tail: seq<Byte>)
    requires c.state == FLAG && m != [] && |m| < 0x8000_0000_0000_0000
    ensures var v := VarIntEncode(|m|);
            Reaches(c, v + m + tail, [m], Config(FLAG, v[0], |m|), tail)
  {
    EncodeIsItem(m);
    ReachesItem(c, ItemOf(m), tail);
    assert HeaderValue(ItemOf(m).flag, ItemOf(m).digits) == |m|;
  }

  // ------------------------------------------------- the grammar of the stream

  /** What a stream consists of: heartbeats and frames, the length spelt in any accepted way. */
  datatype Item = Heartbeat | Frame(flag: Byte, digits: seq<Byte>, body: Message)

  predicate WellFormed(i: Item) {
    i.Frame? ==>
      && i.flag != 0 && |i.digits| == Width(i.flag)
      && |i.body| == HeaderValue(i.flag, i.digits) && |i.body| < 0x8000_0000_0000_0000
  }

  function Wire(i: Item): seq<Byte> {
    match i
    case Heartbeat => [0]
    case Frame(flag, digits, body) => [flag] + digits + body
  }

  function WireAll(items: seq<Item>): seq<Byte> {
    if items == [] then [] else Wire(items[0]) + WireAll(items[1..])
  }

  function Bodies(items: seq<Item>): seq<Message> {
    if items == [] then []
    else (if items[0].Frame? then [items[0].body] else []) + Bodies(items[1..])
  }

  /** The registers after one item, for a decoder that is between two frames. */
  function Registers(c: Config, i: Item): Config
    requires WellFormed(i)
  {
    match i
    case Heartbeat => c.(flag := 0)
    case Frame(flag, digits, _) => c.(flag := flag, length := HeaderValue(flag, digits))
  }

  function RegistersAll(c: Config, items: seq<Item>): Config
    requires forall i :: i in items ==> WellFormed(i)
    decreases |items|
  {
    if items == [] then c else RegistersAll(Registers(c, items[0]), items[1..])
  }

  /** Decoding bs emits ms and is then decoding bs'. */
  ghost predicate Reaches(c: Config, bs: seq<Byte>, ms: seq<Message>, c': Config, bs': seq<Byte>) {
    var r := Decode(c', bs');
    Decode(c, bs) == r.(messages := ms + r.messages)
  }

  lemma ReachesTrans(c: Config, bs: seq<Byte>, ms: seq<Message>, c': Config, bs': seq<Byte>,
                     ms': seq<Message>, c'': Config, bs'': seq<Byte>)
    requires Reaches(c, bs, ms, c', bs') && Reaches(c', bs', ms', c'', bs'')
    ensures Reaches(c, bs, ms + ms', c'', bs'')
  {
    var r := Decode(c'', bs'');
    assert ms + (ms' + r.messages) == ms + ms' + r.messages;
  }

  lemma ReachesHeader(c: Config, flag: Byte, digits: seq<Byte>, rest: seq<Byte>)
    requires c.state == FLAG && flag != 0 && |digits| == Width(flag)
    ensures Reaches(c, [flag] + digits + rest, [], Config(BODY, flag, HeaderValue(flag, digits)), rest)
  {
    var c1 := c.(state := LENGTH, flag := flag);
    var c2 := Config(BODY, flag, HeaderValue(flag, digits));
    var bs := [flag] + digits + rest;
    assert bs[1..] == digits + rest && (digits + rest)[..|digits|] == digits && (digits + rest)[|digits|..] == rest;
    assert Reaches(c, bs, [], c1, digits + rest);
    assert Reaches(c1, digits + rest, [], c2, rest);
    ReachesTrans(c, bs, [], c1, digits + rest, [], c2, rest);
    var none: seq<Message> := [];
    assert none + none == none;
  }

  lemma ReachesItem(c: Config, i: Item, tail: seq<Byte>)
    requires c.state == FLAG && WellFormed(i)
    ensures Reaches(c, Wire(i) + tail, Bodies([i]), Registers(c, i), tail)
  {
    match i
    case Heartbeat =>
      assert (Wire(i) + tail)[1..] == tail;
    case Frame(flag, digits, body) =>
      var c2 := Config(BODY, flag, HeaderValue(flag, digits));
      ReachesHeader(c, flag, digits, body + tail);
      assert Wire(i) + tail == [flag] + digits + (body + tail);
      assert (body + tail)[..|body|] == body && (body + tail)[|body|..] == tail;
      assert Reaches(c2, body + tail, [body], Registers(c, i), tail);
      ReachesTrans(c, Wire(i) + tail, [], c2, body + tail, [body], Registers(c, i), tail);
      assert [] + [body] == Bodies([i]);
  }

  /** Every stream of well-formed items is decoded item by item, whatever follows. */
  lemma {:induction false} DecodesItems(c: Config, items: seq<Item>, tail: seq<Byte>)
    requires c.state == FLAG && forall i :: i in items ==> WellFormed(i)
    ensures RegistersAll(c, items).state == FLAG
    ensures Reaches(c, WireAll(items) + tail, Bodies(items), RegistersAll(c, items), tail)
    decreases |items|
  {
    if items == [] {
      assert WireAll(items) + tail == tail;
      assert [] + Decode(c, tail).messages == Decode(c, tail).messages;
    } else {
      var rest := WireAll(items[1..]) + tail;
      assert WireAll(items) + tail == Wire(items[0]) + rest;
      ReachesItem(c, items[0], rest);
      var c1 := Registers(c, items[0]);
      DecodesItems(c1, items[1..], tail);
      ReachesTrans(c, WireAll(items) + tail, Bodies([items[0]]), c1, rest,
                   Bodies(items[1..]), RegistersAll(c, items), tail);
      assert Bodies(items) == Bodies([items[0]]) + Bodies(items[1..]);
    }
  }

  // ------------------------------------------------------- nothing gets lost

  /** The decoder has begun a frame with these bytes and waits for more than is unread. */
  ghost predicate Waits(c: Config, unread: seq<Byte>, begun: seq<Byte>) {
    && Turn(c, unread) == None
    && match c.state
       case FLAG => begun == []
       case LENGTH => begun == [c.flag] && c.flag != 0
       case BODY => begun != [] && begun[0] == c.flag != 0 && |begun| == 1 + Width(begun[0]) &&
                    c.length == HeaderValue(begun[0], begun[1..])
  }

  ghost predicate AllWellFormed(items: seq<Item>) {
    forall i :: i in items ==> WellFormed(i)
  }

  /** Bytes bs are these items, this beginning of a frame, and what r leaves unread. */
  ghost predicate Accounts(r: Decoded, bs: seq<Byte>, items: seq<Item>, begun: seq<Byte>) {
    && AllWellFormed(items)
    && bs == WireAll(items) + (begun + r.unread)
    && r.messages == Bodies(items)
    && Waits(r.config, r.unread, begun)
  }

  lemma Associates(a: seq<Byte>, b: seq<Byte>, c: seq<Byte>)
    ensures a + (b + c) == (a + b) + c
  {
  }

  lemma ItemsCons(i: Item, items: seq<Item>)
    ensures WireAll([i] + items) == Wire(i) + WireAll(items)
    ensures Bodies([i] + items) == Bodies([i]) + Bodies(items)
  {
    assert ([i] + items)[1..] == items;
  }

  lemma AccountsCons(r: Decoded, i: Item, tail: seq<Byte>, items: seq<Item>, begun: seq<Byte>)
    requires WellFormed(i) && Accounts(r, tail, items, begun)
    ensures Accounts(r.(messages := Bodies([i]) + r.messages), Wire(i) + tail, [i] + items, begun)
  {
    ItemsCons(i, items);
    Associates(Wire(i), WireAll(items), begun + r.unread);
  }

  /** A header whose body is not there yet is consumed and remembered. */
  lemma AccountsHeader(c: Config, flag: Byte, digits: seq<Byte>, rest: seq<Byte>)
    requires c.state == FLAG && flag != 0 && |digits| == Width(flag)
    requires HeaderValue(flag, digits) >= 0x8000_0000_0000_0000 || |rest| < HeaderValue(flag, digits)
    ensures Accounts(Decode(c, [flag] + digits + rest), [flag] + digits + rest, [], [flag] + digits)
  {
    ReachesHeader(c, flag, digits, rest);
    assert ([flag] + digits)[1..] == digits;
  }

  lemma AccountsFlag(c: Config, bs: seq<Byte>)
    requires c.state == FLAG && bs != [] && bs[0] != 0 && |bs| < 1 + Width(bs[0])
    ensures Accounts(Decode(c, bs), bs, [], [bs[0]])
  {
    assert bs == [bs[0]] + bs[1..];
    assert Decode(c, bs) == Decoded(c.(state := LENGTH, flag := bs[0]), [], bs[1..]);
  }

  /** Byte conservation: for every input whatsoever, the bytes received are the wire form
      of some items, the begun part of one frame and the unread bytes; the messages are
      exactly the bodies of the items; and the unread bytes are too few to go on. */
  lemma {:induction false} DecodeAccounts(c: Config, bs: seq<Byte>) returns (items: seq<Item>, begun: seq<Byte>)
    requires c.state == FLAG
    ensures Accounts(Decode(c, bs), bs, items, begun)
    decreases |bs|
  {
    if bs == [] {
      items, begun := [], [];
    } else if bs[0] == 0 {
      items, begun := DecodeAccounts(Registers(c, Heartbeat), bs[1..]);
      ReachesItem(c, Heartbeat, bs[1..]);
      AccountsCons(Decode(Registers(c, Heartbeat), bs[1..]), Heartbeat, bs[1..], items, begun);
      assert bs == Wire(Heartbeat) + bs[1..];
      items := [Heartbeat] + items;
    } else if |bs| < 1 + Width(bs[0]) {
      AccountsFlag(c, bs);
      items, begun := [], [bs[0]];
    } else {
      var w := Width(bs[0]);
      var flag, digits, rest := bs[0], bs[1..1 + w], bs[1 + w..];
      assert bs == [flag] + digits + rest;
      var n := HeaderValue(flag, digits);
      if n >= 0x8000_0000_0000_0000 || |rest| < n {
        AccountsHeader(c, flag, digits, rest);
        items, begun := [], [flag] + digits;
      } else {
        var frame := Frame(flag, digits, rest[..n]);
        assert bs == Wire(frame) + rest[n..];
        items, begun := DecodeAccounts(Registers(c, frame), rest[n..]);
        ReachesItem(c, frame, rest[n..]);
        AccountsCons(Decode(Registers(c, frame), rest[n..]), frame, rest[n..], items, begun);
        items := [frame] + items;
      }
    }
  }

  // ------------------------------------------------------------- round trip

  predicate Sendable(ms: seq<Message>) {
    forall m :: m in ms ==> |m| < 0x8000_0000_0000_0000
  }

  function EncodeAll(ms: seq<Message>): seq<Byte>
    requires Sendable(ms)
  {
    if ms == [] then [] else Encode(ms[0]) + EncodeAll(ms[1..])
  }

  function NonEmpty(ms: seq<Message>): seq<Message> {
    if ms == [] then []
    else (if ms[0] != [] then [ms[0]] else []) + NonEmpty(ms[1..])
  }

  /** What the encoder writes for one message is one item: a heartbeat if it is empty. */
  function ItemOf(m: Message): Item
    requires |m| < 0x8000_0000_0000_0000
  {
    if m == [] then Heartbeat
    else Frame(VarIntEncode(|m|)[0], VarIntEncode(|m|)[1..], m)
  }

  lemma EncodeIsItem(m: Message)
    requires |m| < 0x8000_0000_0000_0000
    ensures WellFormed(ItemOf(m)) && Wire(ItemOf(m)) == Encode(m)
    ensures Bodies([ItemOf(m)]) == if m == [] then [] else [m]
  {
    var v := VarIntEncode(|m|);
    ParseEncode(|m|, []);
    assert v + [] == v;
    assert v == [v[0]] + v[1..];
    assert v[1..1 + Width(v[0])] == v[1..];
    if m != [] { assert [v[0]] + v[1..] + m == v + m; }
  }

  /** Whatever the sender writes, the receiver decodes to exactly the non-empty messages in
      order, and is then between two frames with nothing unread. */
  lemma {:induction false} RoundTrip(c: Config, ms: seq<Message>)
    requires c.state == FLAG && Sendable(ms)
    ensures var r := Decode(c, EncodeAll(ms));
            r.messages == NonEmpty(ms) && r.config.state == FLAG && r.unread == []
    decreases |ms|
  {
    if ms != [] {
      var i := ItemOf(ms[0]);
      EncodeIsItem(ms[0]);
      ReachesItem(c, i, EncodeAll(ms[1..]));
      RoundTrip(Registers(c, i), ms[1..]);
    }
  }

  /** The two ends of a connection: the messages go through one codec, the network cuts the
      bytes in any way it likes, and the pieces go through another codec. */
  method Transfer(sender: SimpleCodec, ms: seq<Message>, cut: seq<Byte> -> seq<seq<Byte>>)
      returns (received: seq<Message>)
    requires Sendable(ms)
    requires forall bs :: Concat(cut(bs)) == bs
    ensures received == NonEmpty(ms)
  {
    var wire := [];
    for i := 0 to |ms|
      invariant wire + EncodeAll(ms[i..]) == EncodeAll(ms)
    {
      var frame := sender.Write(ms[i]);
      assert ms[i..][1..] == ms[i + 1..];
      assert wire + (frame + EncodeAll(ms[i + 1..])) == wire + frame + EncodeAll(ms[i + 1..]);
      wire := wire + frame;
    }
    assert wire + [] == wire;
    var receiver := new SimpleCodec();
    assert receiver.Unread() + Concat(cut(wire)) == wire;
    RoundTrip(Config(FLAG, 0, 0), ms);
    received := ReadChunks(receiver, cut(wire));
  }
}
