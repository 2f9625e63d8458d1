/** Base 64 as in section 4 of RFC 4648, and the size arithmetic and padding loop around it. */
module Base64 {
  import opened Basics

  type sextet = x: int | 0 <= x < 64

  const PAD := '='

  /** Table 1 of the RFC. */
  function Digit(v: sextet): (c: char)
    ensures c != PAD
  {
    if v < 26 then ('A' as int + v) as char
    else if v < 52 then ('a' as int + v - 26) as char
    else if v < 62 then ('0' as int + v - 52) as char
    else if v == 62 then '+' else '/'
  }

  /** The value of a character, a pad counting as zero, as the block decoder has it. */
  function Value(c: char): Option<sextet> {
    if 'A' <= c <= 'Z' then Some(c as int - 'A' as int)
    else if 'a' <= c <= 'z' then Some(c as int - 'a' as int + 26)
    else if '0' <= c <= '9' then Some(c as int - '0' as int + 52)
    else if c == '+' then Some(62)
    else if c == '/' then Some(63)
    else if c == PAD then Some(0)
    else None
  }

  const COLUMN1 := "ABCDEFGH" + "IJKLMNOP"
  const COLUMN2 := "QRSTUVWX" + "YZabcdef"
  const COLUMN3 := "ghijklmn" + "opqrstuv"
  const COLUMN4 := "wxyz0123" + "456789+/"

  const ALPHABET := COLUMN1 + COLUMN2 + COLUMN3 + COLUMN4

  lemma FirstColumns(v: nat)
    requires v < 16
    ensures |COLUMN1| == |COLUMN2| == 16 && COLUMN1[v] == Digit(v) && COLUMN2[v] == Digit(16 + v)
  {
  }

  lemma LastColumns(v: nat)
    requires v < 16
    ensures |COLUMN3| == |COLUMN4| == 16 && COLUMN3[v] == Digit(32 + v) && COLUMN4[v] == Digit(48 + v)
  {
  }

  /** The 64 characters of the table in their order. */
  lemma Table1(v: sextet)
    ensures |ALPHABET| == 64 && ALPHABET[v] == Digit(v)
  {
    hide COLUMN1, COLUMN2, COLUMN3, COLUMN4, Digit;
    FirstColumns(v % 16);
    LastColumns(v % 16);
  }

  lemma ValueOfDigit(v: sextet)
    ensures Value(Digit(v)) == Some(v)
  {
  }

  lemma DigitOfValue(c: char)
    requires c != PAD && Value(c).Some?
    ensures Digit(Value(c).value) == c
  {
  }

  /** EVP_EncodeBlock. */
  function EncodeBlock(x: seq<byte>): string
    decreases |x|
  {
    if x == [] then ""
    else if |x| == 1 then Group1(x[0])
    else if |x| == 2 then Group2(x[0], x[1])
    else Group(x[0], x[1], x[2]) + EncodeBlock(x[3..])
  }

  function Group1(a: byte): (s: string)
    ensures |s| == 4
  {
    [Digit(a / 4), Digit(a % 4 * 16), PAD, PAD]
  }

  function Group2(a: byte, b: byte): (s: string)
    ensures |s| == 4
  {
    [Digit(a / 4), Digit(a % 4 * 16 + b / 16), Digit(b % 16 * 4), PAD]
  }

  function Group(a: byte, b: byte, c: byte): (s: string)
    ensures |s| == 4 && s[3] != PAD
  {
    [Digit(a / 4), Digit(a % 4 * 16 + b / 16), Digit(b % 16 * 4 + c / 64), Digit(c % 64)]
  }

  /** The three bytes of four sextets. */
  function Ungroup(a: sextet, b: sextet, c: sextet, d: sextet): (r: seq<byte>)
    ensures |r| == 3
  {
    [a * 4 + b / 16, b % 16 * 16 + c / 4, c % 4 * 64 + d]
  }

  /** EVP_DecodeBlock: three bytes for every four characters, pads read as zeros. */
  function DecodeBlock(s: string): Option<seq<byte>>
    decreases |s|
  {
    if s == "" then Some([])
    else if |s| < 4 then None
    else
      var a, b, c, d := Value(s[0]), Value(s[1]), Value(s[2]), Value(s[3]);
      var rest := DecodeBlock(s[4..]);
      if a.None? || b.None? || c.None? || d.None? || rest.None? then None
      else Some(Ungroup(a.value, b.value, c.value, d.value) + rest.value)
  }

  /** The characters needed for `bytes` bytes: four for every three begun. */
  function EncodedBytes(bytes: nat): nat { (bytes + 2) / 3 * 4 }

  function DecodedBytes(chars: nat): nat { (chars + 3) / 4 * 3 }

  /** How far the decoded size overshoots. */
  function Padding(n: nat): nat { (3 - n % 3) % 3 }

  lemma {:induction false} EncodedSize(x: seq<byte>)
    ensures |EncodeBlock(x)| == EncodedBytes(|x|)
    decreases |x|
  {
    hide Group, Group1, Group2;
    if |x| >= 3 {
      EncodedSize(x[3..]);
      assert (|x| - 3 + 2) / 3 + 1 == (|x| + 2) / 3;
    }
  }

  lemma {:induction false} DecodedSize(s: string)
    requires DecodeBlock(s).Some?
    ensures |s| % 4 == 0 && |DecodeBlock(s).value| == DecodedBytes(|s|)
    decreases |s|
  {
    hide Value, Ungroup;
    if s != "" {
      DecodedSize(s[4..]);
      SizeStep(|s|);
    }
  }

  lemma SizeStep(n: nat)
    requires n >= 4
    ensures DecodedBytes(n) == 3 + DecodedBytes(n - 4) && n % 4 == (n - 4) % 4
  {
  }

  /** Both sizes are rounded up to whole groups: a group for every three bytes, or four characters, begun. */
  lemma SizesRoundUp(n: nat)
    ensures exists groups: nat :: EncodedBytes(n) == 4 * groups && 3 * groups - 3 < n <= 3 * groups
    ensures exists groups: nat :: DecodedBytes(n) == 3 * groups && 4 * groups - 4 < n <= 4 * groups
  {
    var e, d := (n + 2) / 3, (n + 3) / 4;
    assert EncodedBytes(n) == 4 * e && 3 * e - 3 < n <= 3 * e;
    assert DecodedBytes(n) == 3 * d && 4 * d - 4 < n <= 4 * d;
  }

  /** The sizes fit: decoding an encoding of n bytes takes a buffer that is too large by the padding. */
  lemma Sizes(n: nat)
    ensures EncodedBytes(n) % 4 == 0
    ensures DecodedBytes(EncodedBytes(n)) == n + Padding(n)
    ensures Padding(n) < 3
  {
    var q := n / 3;
    var groups := if n % 3 == 0 then q else q + 1;
    assert (n + 2) / 3 == groups;
    assert (4 * groups + 3) / 4 == groups;
  }

  /** The number of pads at the end. */
  function Trailing(s: string): (n: nat)
    ensures n <= |s| && (forall i | |s| - n <= i < |s| :: s[i] == PAD) && (n < |s| ==> s[|s| - 1 - n] != PAD)
  {
    if s == "" || s[|s| - 1] != PAD then 0 else 1 + Trailing(s[..|s| - 1])
  }

  /** `decode`; `None` is a failed assertion or an exception. */
  function Decoded(s: string): Option<seq<byte>> {
    var block := DecodeBlock(s);
    if block.None? || Trailing(s) > |block.value| then None
    else Some(block.value[..|block.value| - Trailing(s)])
  }

  function Zeros(n: nat): (z: seq<byte>)
    ensures |z| == n
  {
    seq(n, i => 0)
  }

  lemma GroupInverse(a: byte, b: byte, c: byte)
    ensures Ungroup(a / 4, a % 4 * 16 + b / 16, b % 16 * 4 + c / 64, c % 64) == [a, b, c]
  {
  }

  /** Four characters that stand for `t`, and what follows. */
  lemma DecodeStep(s: string, a: byte, b: byte, c: byte, rest: string)
    requires s == Group(a, b, c) + rest
    ensures DecodeBlock(s) == (var r := DecodeBlock(rest); if r.None? then None else Some([a, b, c] + r.value))
  {
    hide Digit, Value;
    assert s[4..] == rest;
    ValueOfDigit(a / 4);
    ValueOfDigit(a % 4 * 16 + b / 16);
    ValueOfDigit(b % 16 * 4 + c / 64);
    ValueOfDigit(c % 64);
    GroupInverse(a, b, c);
  }

  /** The block codec gives the bytes back, followed by as many zeros as there are pads. */
  lemma {:induction false} BlockRoundTrip(x: seq<byte>)
    ensures DecodeBlock(EncodeBlock(x)) == Some(x + Zeros(Padding(|x|)))
    ensures Trailing(EncodeBlock(x)) == Padding(|x|)
    decreases |x|
  {
    hide Digit, Value, Ungroup, Group, Group1, Group2, Trailing, DecodeBlock, Zeros;
    var s := EncodeBlock(x);
    if x == [] {
      NothingEncoded();
    } else if |x| == 1 {
      OneByte(x[0]);
      assert x == [x[0]];
    } else if |x| == 2 {
      TwoBytes(x[0], x[1]);
      assert x == [x[0], x[1]];
    } else {
      BlockRoundTrip(x[3..]);
      DecodeStep(s, x[0], x[1], x[2], EncodeBlock(x[3..]));
      TrailingAfter(Group(x[0], x[1], x[2]), EncodeBlock(x[3..]));
      var z := Zeros(Padding(|x|));
      PaddingStep(|x|);
      assert [x[0], x[1], x[2]] + (x[3..] + z) == x + z;
    }
  }

  lemma PaddingStep(n: nat)
    requires n >= 3
    ensures Padding(n) == Padding(n - 3)
  {
  }

  lemma NothingEncoded()
    ensures DecodeBlock("") == Some([] + Zeros(0)) && Trailing("") == 0
  {
    assert [] + Zeros(0) == [];
  }

  lemma DecodeFour(s: string)
    requires |s| == 4 && forall i | 0 <= i < 4 :: Value(s[i]).Some?
    ensures DecodeBlock(s) == Some(Ungroup(Value(s[0]).value, Value(s[1]).value, Value(s[2]).value, Value(s[3]).value))
  {
    hide Value, Ungroup;
    assert s[4..] == "" && DecodeBlock("") == Some([]);
    var u := Ungroup(Value(s[0]).value, Value(s[1]).value, Value(s[2]).value, Value(s[3]).value);
    assert u + [] == u;
  }

  lemma OneByte(a: byte)
    ensures DecodeBlock(Group1(a)) == Some([a] + Zeros(2))
    ensures Trailing(Group1(a)) == 2
  {
    hide Digit, Value, Ungroup, Trailing, DecodeBlock;
    ValueOfPad();
    ValueOfDigit(a / 4);
    ValueOfDigit(a % 4 * 16);
    DecodeFour(Group1(a));
    assert Ungroup(a / 4, a % 4 * 16, 0, 0) == [a, 0, 0] by { GroupInverse(a, 0, 0); }
    assert [a] + Zeros(2) == [a, 0, 0];
    TrailingIs(Group1(a), 2);
  }

  lemma TwoBytes(a: byte, b: byte)
    ensures DecodeBlock(Group2(a, b)) == Some([a, b] + Zeros(1))
    ensures Trailing(Group2(a, b)) == 1
  {
    hide Digit, Value, Ungroup, Trailing, DecodeBlock;
    ValueOfPad();
    ValueOfDigit(a / 4);
    ValueOfDigit(a % 4 * 16 + b / 16);
    ValueOfDigit(b % 16 * 4);
    DecodeFour(Group2(a, b));
    assert Ungroup(a / 4, a % 4 * 16 + b / 16, b % 16 * 4, 0) == [a, b, 0] by { GroupInverse(a, b, 0); }
    assert [a, b] + Zeros(1) == [a, b, 0];
    TrailingIs(Group2(a, b), 1);
  }

  lemma TrailingIs(s: string, n: nat)
    requires n < |s| && s[|s| - 1 - n] != PAD && forall i | |s| - n <= i < |s| :: s[i] == PAD
    ensures Trailing(s) == n
  {
    hide Trailing;
    var t := Trailing(s);
    assert t < |s| ==> s[|s| - 1 - t] != PAD;
    assert forall i | |s| - t <= i < |s| :: s[i] == PAD;
  }

  lemma ValueOfPad()
    ensures Value(PAD) == Some(0)
  {
  }

  lemma {:induction false} TrailingAfter(a: string, b: string)
    requires a != "" && a[|a| - 1] != PAD
    ensures Trailing(a + b) == Trailing(b)
    decreases |b|
  {
    if b == "" {
      assert a + b == a;
    } else {
      assert (a + b)[..|a + b| - 1] == a + b[..|b| - 1];
      TrailingAfter(a, b[..|b| - 1]);
    }
  }

  /** Decoding an encoding gives the bytes back, for every byte sequence: the tail loop trims exactly
      the padding. */
  lemma RoundTrip(x: seq<byte>)
    ensures Decoded(EncodeBlock(x)) == Some(x)
  {
    hide EncodeBlock, DecodeBlock, Trailing, Zeros, Padding;
    BlockRoundTrip(x);
    assert (x + Zeros(Padding(|x|)))[..|x|] == x;
  }

  /** Running off the front of the buffer is what the caller must exclude, and an encoding does. */
  lemma TailLoopStops(s: string, x: seq<byte>)
    ensures (exists i :: 0 <= i < |s| && s[i] != PAD) <==> Trailing(s) < |s|
    ensures x != [] ==> Trailing(EncodeBlock(x)) < |EncodeBlock(x)|
  {
    hide Trailing, EncodeBlock, DecodeBlock;
    var t := Trailing(s);
    assert t < |s| ==> s[|s| - 1 - t] != PAD;
    BlockRoundTrip(x);
    EncodedSize(x);
  }

  /** `decode`. A text of pads only makes the source read before its buffer, so callers must not pass
      one; every other text is decoded, or refused where an assertion or `resize` would fail. */
  method Decode(s: string) returns (r: Option<seq<byte>>)
    requires s != "" ==> exists i :: 0 <= i < |s| && s[i] != PAD
    ensures r == Decoded(s)
  {
    hide DecodeBlock, Value;
    if |s| % 4 != 0 {
      RefusesOddSizes(s);
      return None;
    }
    var out := DecodeBlock(s);
    if out.None? {
      return None;
    }
    var written: int := |out.value|;
    if |s| > 0 {
      TailLoopStops(s, []);
      var tail := |s| - 1;
      while s[tail] == PAD
        invariant 0 <= tail < |s|
        invariant forall i | tail < i < |s| :: s[i] == PAD
        invariant written == |out.value| - (|s| - 1 - tail)
        decreases tail
      {
        StillPads(s, tail);
        written := written - 1;
        tail := tail - 1;
      }
      TrailingIs(s, |s| - 1 - tail);
      if written < 0 {
        return None;
      }
    }
    r := Some(out.value[..written]);
  }

  lemma StillPads(s: string, tail: nat)
    requires tail < |s| && s[tail] == PAD && Trailing(s) < |s| && forall i | tail < i < |s| :: s[i] == PAD
    ensures tail > 0
  {
    assert s[|s| - 1 - Trailing(s)] != PAD;
  }

  lemma RefusesOddSizes(s: string)
    requires |s| % 4 != 0
    ensures DecodeBlock(s) == None
  {
    if DecodeBlock(s).Some? {
      DecodedSize(s);
    }
  }

  // ---- which texts are encodings ----

  predicate IsDigit(c: char) { c != PAD && Value(c).Some? }

  /** Groups of four digits, the last of which may end in one or two pads, with no stray bits set. */
  predicate Canonical(s: string)
    decreases |s|
  {
    s == "" || (|s| >= 4 && IsDigit(s[0]) && IsDigit(s[1]) &&
                (if |s| == 4 && s[2] == PAD then s[3] == PAD && Value(s[1]).value % 16 == 0
                 else if |s| == 4 && s[3] == PAD then IsDigit(s[2]) && Value(s[2]).value % 4 == 0
                 else IsDigit(s[2]) && IsDigit(s[3]) && Canonical(s[4..])))
  }

  lemma DigitIsDigit(v: sextet)
    ensures IsDigit(Digit(v)) && Value(Digit(v)).value == v
  {
  }

  lemma {:induction false} EncodingIsCanonical(x: seq<byte>)
    ensures Canonical(EncodeBlock(x))
    decreases |x|
  {
    hide Digit, Value, IsDigit;
    var s := EncodeBlock(x);
    if x != [] {
      DigitIsDigit(x[0] / 4);
      if |x| == 1 {
        DigitIsDigit(x[0] % 4 * 16);
      } else {
        DigitIsDigit(x[0] % 4 * 16 + x[1] / 16);
        if |x| == 2 {
          DigitIsDigit(x[1] % 16 * 4);
        } else {
          DigitIsDigit(x[1] % 16 * 4 + x[2] / 64);
          DigitIsDigit(x[2] % 64);
          EncodingIsCanonical(x[3..]);
          assert s[4..] == EncodeBlock(x[3..]);
        }
      }
    }
  }

  lemma GroupOf(a: sextet, b: sextet, c: sextet, d: sextet)
    ensures var u := Ungroup(a, b, c, d);
            && u[0] / 4 == a && u[0] % 4 * 16 + u[1] / 16 == b && u[1] % 16 * 4 + u[2] / 64 == c && u[2] % 64 == d
            && (b % 16 == 0 ==> u[0] % 4 * 16 == b) && (c % 4 == 0 ==> u[1] % 16 * 4 == c)
  {
  }

  lemma {:induction false} CanonicalIsEncoding(s: string) returns (x: seq<byte>)
    requires Canonical(s)
    ensures EncodeBlock(x) == s
    decreases |s|
  {
    hide Digit, Value, Ungroup;
    if s == "" {
      x := [];
    } else {
      var a, b := Value(s[0]).value, Value(s[1]).value;
      DigitOfValue(s[0]);
      DigitOfValue(s[1]);
      if |s| == 4 && s[2] == PAD {
        var u := Ungroup(a, b, 0, 0);
        GroupOf(a, b, 0, 0);
        x := [u[0]];
      } else if |s| == 4 && s[3] == PAD {
        var u := Ungroup(a, b, Value(s[2]).value, 0);
        GroupOf(a, b, Value(s[2]).value, 0);
        DigitOfValue(s[2]);
        x := [u[0], u[1]];
      } else {
        var u := Ungroup(a, b, Value(s[2]).value, Value(s[3]).value);
        GroupOf(a, b, Value(s[2]).value, Value(s[3]).value);
        DigitOfValue(s[2]);
        DigitOfValue(s[3]);
        var rest := CanonicalIsEncoding(s[4..]);
        x := u + rest;
        assert x[3..] == rest && s == s[..4] + s[4..];
      }
    }
  }

  /** A text is what its decoding encodes to exactly when it is canonical. */
  lemma CanonicalExactly(s: string)
    ensures Canonical(s) <==> Decoded(s).Some? && EncodeBlock(Decoded(s).value) == s
  {
    hide EncodeBlock, Decoded, Canonical;
    if Canonical(s) {
      var x := CanonicalIsEncoding(s);
      RoundTrip(x);
    }
    if Decoded(s).Some? {
      EncodingIsCanonical(Decoded(s).value);
    }
  }

  /** The four characters of a group are the digits, to base 64, of its 24 bits. */
  lemma GroupIs24Bits(a: byte, b: byte, c: byte)
    ensures var s := Group(a, b, c);
            forall i | 0 <= i < 4 :: Value(s[i]).Some?
    ensures var s := Group(a, b, c);
            Value(s[0]).value * 0x4_0000 + Value(s[1]).value * 0x1000 + Value(s[2]).value * 0x40 + Value(s[3]).value
            == a * 0x1_0000 + b * 0x100 + c
  {
    hide Digit, Value;
    ValueOfDigit(a / 4);
    ValueOfDigit(a % 4 * 16 + b / 16);
    ValueOfDigit(b % 16 * 4 + c / 64);
    ValueOfDigit(c % 64);
  }

  /** Some of the test vectors of section 10 of the RFC: "f", "fo" and "foo". */
  lemma TestVectors()
    ensures EncodeBlock([102]) == "Zg==" && Decoded("Zg==") == Some([102])
    ensures EncodeBlock([102, 111]) == "Zm8=" && Decoded("Zm8=") == Some([102, 111])
    ensures EncodeBlock([102, 111, 111]) == "Zm9v" && Decoded("Zm9v") == Some([102, 111, 111])
  {
    hide Decoded, Group;
    assert Group(102, 111, 111) == "Zm9v" by { FooIsZm9v(); }
    assert [102, 111, 111][3..] == [];
    assert EncodeBlock([102, 111, 111]) == "Zm9v" + EncodeBlock([]) == "Zm9v";
    RoundTrip([102]);
    RoundTrip([102, 111]);
    RoundTrip([102, 111, 111]);
  }

  lemma FooIsZm9v()
    ensures Group(102, 111, 111) == "Zm9v"
  {
  }
}
