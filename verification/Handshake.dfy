/** The hello messages and the transport each end picks from them. */
module Handshake {
  import opened Basics
  import opened Wire

  const PROTOCOL_VERSION: uint32 := 1

  // comm::Protocol
  const NONE: uint32 := 0
  const TCP: uint32 := 1
  const TLS: uint32 := 2

  datatype Hello = Hello(version: uint32, protocol: uint32)

  /** The object representation of a `HelloMessage`: two words, no padding. */
  function HelloBytes(h: Hello): (m: Message)
    ensures |m| == 8
  {
    Word(h.version) + Word(h.protocol)
  }

  /** `reinterpret_cast` of eight received bytes. */
  function HelloOf(m: seq<byte>): Hello
    requires |m| == 8
  {
    Hello(WordValue(m[..4]), WordValue(m[4..]))
  }

  /** The two words of a hello, in the order in which they are on the wire. */
  lemma HelloWords(h: Hello)
    ensures WordValue(HelloBytes(h)[..4]) == h.version && WordValue(HelloBytes(h)[4..8]) == h.protocol
  {
    hide Word, WordValue;
    assert HelloBytes(h)[..4] == Word(h.version) && HelloBytes(h)[4..8] == Word(h.protocol);
    WordBijection(h.version, Word(0));
    WordBijection(h.protocol, Word(0));
  }

  lemma HelloInverse(h: Hello)
    ensures HelloOf(HelloBytes(h)) == h
  {
    hide Word, WordValue, HelloBytes;
    HelloWords(h);
    assert HelloBytes(h)[4..] == HelloBytes(h)[4..8];
  }

  /** Bitwise and of two 32-bit words. */
  function And(a: uint32, b: uint32): (r: uint32)
    ensures r <= a
  {
    if a == 0 || b == 0 then 0 else (if a % 2 == 1 && b % 2 == 1 then 1 else 0) + 2 * And(a / 2, b / 2)
  }

  /** The i-th bit of a word. */
  predicate Bit(x: uint32, i: nat) {
    if i == 0 then x % 2 == 1 else Bit(x / 2, i - 1)
  }

  predicate AllowsTCP(protocol: uint32) { protocol % 2 == 1 }

  predicate AllowsTLS(protocol: uint32) { protocol / 2 % 2 == 1 }

  datatype Choice = UseTLS | UseTCP | Refuse

  /** The server's answer to a client hello. */
  function Reply(client: Hello, version: uint32, allowed: uint32): Hello {
    if client.version != version then Hello(0, NONE) else Hello(version, And(client.protocol, allowed))
  }

  /** What the server does after sending `reply`; `Refuse` is a thrown ProtocolError. */
  function ServerChoice(reply: Hello): Choice {
    if reply.version == 0 then Refuse
    else if And(reply.protocol, TLS) == TLS then UseTLS
    else if And(reply.protocol, TCP) == TCP then UseTCP
    else Refuse
  }

  /** What the client does after receiving `reply`. */
  function ClientChoice(reply: Hello): Choice {
    if reply.version == 0 then Refuse
    else if reply.protocol == NONE then Refuse
    else if And(reply.protocol, TLS) == TLS then UseTLS
    else if And(reply.protocol, TCP) == TCP then UseTCP
    else Refuse
  }

  lemma AndBits(a: uint32, b: uint32)
    ensures And(a, b) % 2 == 1 <==> a % 2 == 1 && b % 2 == 1
    ensures And(a, b) / 2 == And(a / 2, b / 2)
  {
    var bit := if a % 2 == 1 && b % 2 == 1 then 1 else 0;
    if a == 0 || b == 0 {
      assert And(a, b) == 0 == And(a / 2, b / 2);
    } else {
      assert And(a, b) == bit + 2 * And(a / 2, b / 2);
      BitAndHalf(bit, And(a / 2, b / 2));
    }
  }

  lemma BitAndHalf(bit: int, half: int)
    requires 0 <= bit <= 1
    ensures (bit + 2 * half) % 2 == bit && (bit + 2 * half) / 2 == half
  {
  }

  /** It is bitwise. */
  lemma {:induction false} AndIsBitwise(a: uint32, b: uint32, i: nat)
    ensures Bit(And(a, b), i) <==> Bit(a, i) && Bit(b, i)
    decreases i
  {
    hide And;
    AndBits(a, b);
    if i > 0 {
      AndIsBitwise(a / 2, b / 2, i - 1);
    }
  }

  lemma AllowsAnd(a: uint32, b: uint32)
    ensures AllowsTCP(And(a, b)) <==> AllowsTCP(a) && AllowsTCP(b)
    ensures AllowsTLS(And(a, b)) <==> AllowsTLS(a) && AllowsTLS(b)
  {
    hide And;
    AndBits(a, b);
    AndBits(a / 2, b / 2);
  }

  /** The flag tests of the source look at one bit each. */
  lemma FlagTests(p: uint32)
    ensures And(p, TCP) == TCP <==> AllowsTCP(p)
    ensures And(p, TLS) == TLS <==> AllowsTLS(p)
  {
    AndBits(p, 1);
    AndBits(p, 2);
    AndBits(p / 2, 1);
  }

  /** Both ends decide alike, whatever the flag words and the two protocol versions are: TLS exactly
      when the versions match, are not the reserved 0, and both ends allow TLS; TCP exactly when the
      same holds of TCP and not of TLS; otherwise both throw. No other flag bit matters. */
  lemma Agreement(client: Hello, version: uint32, allowed: uint32)
    ensures var r := Reply(client, version, allowed);
            && ClientChoice(r) == ServerChoice(r)
            && (ServerChoice(r) == UseTLS <==>
                client.version == version != 0 && AllowsTLS(client.protocol) && AllowsTLS(allowed))
            && (ServerChoice(r) == UseTCP <==>
                && client.version == version != 0
                && AllowsTCP(client.protocol) && AllowsTCP(allowed)
                && !(AllowsTLS(client.protocol) && AllowsTLS(allowed)))
  {
    hide And;
    var r := Reply(client, version, allowed);
    AllowsAnd(client.protocol, allowed);
    FlagTests(r.protocol);
  }

  /** The hello that the client sends is protocol version 1 and all the bits it allows; the answer is
      version 1 with exactly the bits that both allow, or, to any other version, two zeros. */
  lemma HellosOnTheWire(client: Hello, allowed: uint32)
    ensures var w := HelloBytes(Hello(PROTOCOL_VERSION, allowed)); WordValue(w[..4]) == 1 && WordValue(w[4..8]) == allowed
    ensures var w := HelloBytes(Reply(client, PROTOCOL_VERSION, allowed));
            if client.version == 1 then
              && WordValue(w[..4]) == 1
              && forall i | 0 <= i < 32 :: Bit(WordValue(w[4..8]), i) <==> Bit(client.protocol, i) && Bit(allowed, i)
            else WordValue(w[..4]) == 0 && WordValue(w[4..8]) == 0
  {
    hide WordValue, HelloBytes, And, Bit;
    HelloWords(Hello(PROTOCOL_VERSION, allowed));
    HelloWords(Reply(client, PROTOCOL_VERSION, allowed));
    forall i | 0 <= i < 32
      ensures Bit(And(client.protocol, allowed), i) <==> Bit(client.protocol, i) && Bit(allowed, i)
    {
      AndIsBitwise(client.protocol, allowed, i);
    }
  }

  /** What an answer means, by its two words: bit 1 is TLS, bit 0 is TCP, TLS is preferred. */
  lemma ChoiceOfWords(version: uint32, protocol: uint32)
    ensures var h := Hello(version, protocol);
            ServerChoice(h) == ClientChoice(h) == (
              if version != 0 && Bit(protocol, 1) then UseTLS
              else if version != 0 && Bit(protocol, 0) then UseTCP else Refuse)
  {
    hide And;
    FlagTests(protocol);
  }
}
