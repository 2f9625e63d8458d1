/** The bytes that travel between two connections: 4-byte length headers and
    length-prefixed frames, and the fact that a wire can be read in one way only. */
module Wire {
  import opened Basics

  /** What one call of `send_message` can be handed: its size is a `uint32_t`. */
  type Message = m: seq<byte> | |m| < 0x1_0000_0000

  datatype ByteOrder = LittleEndian | BigEndian

  /** The byte order of the machine. Nothing fixes it, so every proof holds for both;
      the two ends of a connection are assumed to share it. */
  const NATIVE_ORDER: ByteOrder

  /** The object representation of a `uint32_t`. */
  function Word(n: uint32): (w: seq<byte>)
    ensures |w| == 4
  {
    var b: seq<byte> := [n % 0x100, n / 0x100 % 0x100, n / 0x1_0000 % 0x100, n / 0x100_0000];
    if NATIVE_ORDER == LittleEndian then b else [b[3], b[2], b[1], b[0]]
  }

  /** The `uint32_t` that four bytes represent. */
  function WordValue(w: seq<byte>): uint32
    requires |w| == 4
  {
    var b := if NATIVE_ORDER == LittleEndian then w else [w[3], w[2], w[1], w[0]];
    var b0: int, b1: int, b2: int, b3: int := b[0], b[1], b[2], b[3];
    b0 + 0x100 * b1 + 0x1_0000 * b2 + 0x100_0000 * b3
  }

  lemma DigitsOfSum(b0: byte, b1: byte, b2: byte, b3: byte, v: int)
    requires v == (b0 as int) + 0x100 * b1 + 0x1_0000 * b2 + 0x100_0000 * b3
    ensures v % 0x100 == b0 && v / 0x100 % 0x100 == b1
    ensures v / 0x1_0000 % 0x100 == b2 && v / 0x100_0000 == b3
  {
    var hi := b2 as int + 0x100 * b3;
    var mid := b1 as int + 0x100 * hi;
    assert v == 0x100 * mid + b0;
    assert v / 0x100 == mid;
    assert v / 0x1_0000 == hi;
    assert v / 0x100_0000 == b3;
  }

  /** The length encoding is a bijection between `uint32_t` and four bytes. */
  lemma WordBijection(n: uint32, w: seq<byte>)
    requires |w| == 4
    ensures WordValue(Word(n)) == n
    ensures Word(WordValue(w)) == w
  {
    if NATIVE_ORDER == LittleEndian {
      DigitsOfSum(w[0], w[1], w[2], w[3], WordValue(w));
    } else {
      DigitsOfSum(w[3], w[2], w[1], w[0], WordValue(w));
    }
    SumOfDigits(n);
  }

  lemma SumOfDigits(n: uint32)
    ensures n == n % 0x100 + 0x100 * (n / 0x100 % 0x100) + 0x1_0000 * (n / 0x1_0000 % 0x100)
                 + 0x100_0000 * (n / 0x100_0000)
  {
    var q := n / 0x100;
    assert n / 0x1_0000 == q / 0x100;
    assert n / 0x100_0000 == q / 0x100 / 0x100;
  }

  /** The least significant byte comes first, or last. */
  lemma WordLayout(n: uint32)
    ensures var w := Word(n);
            var a: int, b: int, c: int, d: int := w[0], w[1], w[2], w[3];
            n == match NATIVE_ORDER
                 case LittleEndian => a + 0x100 * b + 0x1_0000 * c + 0x100_0000 * d
                 case BigEndian => d + 0x100 * c + 0x1_0000 * b + 0x100_0000 * a
  {
    SumOfDigits(n);
  }

  /** One message on the wire. */
  function Frame(m: Message): (f: seq<byte>)
    ensures |f| == 4 + |m|
  {
    Word(|m|) + m
  }

  function Frames(ms: seq<Message>): seq<byte> {
    if ms == [] then [] else Frame(ms[0]) + Frames(ms[1..])
  }

  /** No whole frame starts `w`. */
  predicate Incomplete(w: seq<byte>) {
    |w| < 4 || |w| < 4 + WordValue(w[..4])
  }

  /** Reads frames off the front of a wire until what is left is no whole frame. */
  function Parse(w: seq<byte>): (r: (seq<Message>, seq<byte>))
    decreases |w|
  {
    if Incomplete(w) then ([], w)
    else
      var n := WordValue(w[..4]);
      var r := Parse(w[4 + n..]);
      ([w[4..4 + n]] + r.0, r.1)
  }

  lemma FrameFront(m: Message, s: seq<byte>)
    ensures !Incomplete(Frame(m) + s)
    ensures (Frame(m) + s)[..4] == Word(|m|)
    ensures WordValue((Frame(m) + s)[..4]) == |m|
    ensures (Frame(m) + s)[4..4 + |m|] == m
    ensures (Frame(m) + s)[4 + |m|..] == s
  {
    hide Word, WordValue;
    assert (Frame(m) + s)[..4] == Word(|m|);
    WordBijection(|m|, Word(|m|));
  }

  /** The frame encoding is prefix-free, and what follows a frame is determined by the wire. */
  lemma FramePrefixFree(a: Message, s: seq<byte>, b: Message, t: seq<byte>)
    requires Frame(a) + s == Frame(b) + t
    ensures a == b && s == t
  {
    hide Word, WordValue;
    FrameFront(a, s);
    FrameFront(b, t);
  }

  /** A strict prefix of a frame contains no whole frame. */
  lemma StrictPrefixIncomplete(m: Message, k: nat)
    requires k < |Frame(m)|
    ensures Incomplete(Frame(m)[..k])
  {
    hide Word, WordValue;
    if k >= 4 {
      assert Frame(m)[..k][..4] == Word(|m|);
      WordBijection(|m|, Word(|m|));
    }
  }

  lemma Associative(a: seq<byte>, b: seq<byte>, c: seq<byte>)
    ensures (a + b) + c == a + (b + c)
  {
  }

  lemma FramesCons(ms: seq<Message>, m: Message, rest: seq<Message>)
    requires ms == [m] + rest
    ensures Frames(ms) == Frame(m) + Frames(rest)
  {
    hide Frame;
    assert ms[1..] == rest;
  }

  lemma {:induction false} FramesAppend(a: seq<Message>, b: seq<Message>)
    ensures Frames(a + b) == Frames(a) + Frames(b)
    decreases |a|
  {
    hide Frame, Frames;
    if a == [] {
      assert a + b == b;
      FramesOfNone();
      assert [] + Frames(b) == Frames(b);
    } else {
      var m, rest := a[0], a[1..];
      assert a == [m] + rest && a + b == [m] + (rest + b);
      FramesCons(a, m, rest);
      FramesCons(a + b, m, rest + b);
      FramesAppend(rest, b);
      Associative(Frame(m), Frames(rest), Frames(b));
    }
  }

  lemma FramesOfNone()
    ensures Frames([]) == []
  {
  }

  lemma FramesSnoc(a: seq<Message>, m: Message)
    ensures Frames(a + [m]) == Frames(a) + Frame(m)
  {
    hide Frame, Frames;
    FramesAppend(a, [m]);
    assert [m] == [m] + [];
    FramesCons([m], m, []);
    FramesOfNone();
    assert Frame(m) + [] == Frame(m);
  }

  /** Whoever has read whole frames off the front of a wire made of whole frames and
      an incomplete rest has read a prefix of exactly those messages. */
  lemma {:induction false} PrefixRead(read: seq<Message>, rest: seq<byte>, sent: seq<Message>, tail: seq<byte>)
    requires Frames(read) + rest == Frames(sent) + tail
    requires Incomplete(tail)
    ensures read <= sent
    ensures rest == Frames(sent[|read|..]) + tail
  {
    hide Word, WordValue;
    if read == [] {
      assert Frames(read) + rest == rest;
      assert sent[|read|..] == sent;
    } else {
      var s := Frames(read[1..]) + rest;
      assert Frame(read[0]) + s == Frames(read) + rest;
      if sent == [] {
        assert tail == Frame(read[0]) + s;
        FrameFront(read[0], s);
        assert false;
      }
      var t := Frames(sent[1..]) + tail;
      assert Frames(sent) + tail == Frame(sent[0]) + t;
      FramePrefixFree(read[0], s, sent[0], t);
      PrefixRead(read[1..], rest, sent[1..], tail);
      assert sent[1..][|read| - 1..] == sent[|read|..];
    }
  }

  /** A wire of whole frames and an incomplete rest has exactly one parse, the one `Parse` finds. */
  lemma {:induction false} UniqueParse(ms: seq<Message>, tail: seq<byte>)
    requires Incomplete(tail)
    ensures Parse(Frames(ms) + tail) == (ms, tail)
  {
    hide Word, WordValue;
    if ms == [] {
      assert Frames(ms) + tail == tail;
    } else {
      var rest := Frames(ms[1..]) + tail;
      assert Frames(ms) + tail == Frame(ms[0]) + rest;
      FrameFront(ms[0], rest);
      UniqueParse(ms[1..], tail);
      assert ms == [ms[0]] + ms[1..];
    }
  }

  /** Every wire is the frames `Parse` finds followed by the incomplete rest it reports. */
  lemma {:induction false} ParseCovers(w: seq<byte>)
    ensures var r := Parse(w); w == Frames(r.0) + r.1 && Incomplete(r.1)
    decreases |w|
  {
    hide Word, WordValue;
    var r := Parse(w);
    if Incomplete(w) {
      assert Frames(r.0) + r.1 == w;
    } else {
      var n := WordValue(w[..4]);
      ParseCovers(w[4 + n..]);
      WordBijection(0, w[..4]);
      assert w == Frame(w[4..4 + n]) + w[4 + n..];
      assert r.0[1..] == Parse(w[4 + n..]).0;
    }
  }

  /** Two different message sequences never give the same bytes. */
  lemma FramesInjective(a: seq<Message>, b: seq<Message>)
    requires Frames(a) == Frames(b)
    ensures a == b
  {
    hide Word, WordValue;
    UniqueParse(a, []);
    UniqueParse(b, []);
    assert Frames(a) + [] == Frames(b) + [];
  }
}
