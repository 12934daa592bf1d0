/** The opening handshake of section 4.2.2 of RFC 6455. */
module Handshake {
  import opened Records
  import opened Words
  import Base64
  import Rfc3174
  import Sha1

  const MAGIC: seq<byte> := [
    50, 53, 56, 69, 65, 70, 65, 53, 45, 69, 57, 49, 52, 45, 52, 55, 68, 65, 45,
    57, 53, 67, 65, 45, 67, 53, 65, 66, 48, 68, 67, 56, 53, 66, 49, 49]

  const RESPONSE :=
    "HTTP/1.1 101 Switching Protocols\r\nUpgrade: websocket\r\nConnection: Upgrade\r\nSec-WebSocket-Accept: "

  lemma MagicLength()
    ensures |MAGIC| == 36
  {
  }

  /** The SHA-1 digest of a text in base 64. */
  ghost function Sealed(text: seq<byte>): (s: string)
    ensures |s| == 28 && Base64.Decode(s) == Some(Rfc3174.Digest(text))
  {
    hide Base64.Encode, Base64.Decode, Rfc3174.Digest;
    Base64.RoundTrip(Rfc3174.Digest(text));
    Base64.Encode(Rfc3174.Digest(text))
  }

  /** `send_websocket_handshake`.  The digested text is cut at 499 octets, so the answer is
      the one RFC 6455 asks for, the sealed key and identifier, for every key of at most
      463 octets. */
  method Reply(key: seq<byte>, bigEndian: bool) returns (reply: string)
    requires 0 !in key
    ensures |key| <= 463 ==> reply == RESPONSE + Sealed(key + MAGIC) + "\r\n\r\n"
    ensures |key| > 463 ==> reply == RESPONSE + Sealed((key + MAGIC)[..499]) + "\r\n\r\n"
  {
    MagicLength();
    hide Rfc3174.Digest, Base64.Encode, Base64.Decode, MAGIC, RESPONSE;
    var text := key + MAGIC;
    var buf := if |text| < 500 then text else text[..499];
    var accept := Seal(buf, bigEndian);
    reply := RESPONSE + accept + "\r\n\r\n";
  }

  method Seal(text: seq<byte>, bigEndian: bool) returns (accept: string)
    ensures accept == Sealed(text)
  {
    hide *;
    var context := new Sha1.Context(bigEndian);
    context.Update(text);
    assert [] + text == text;
    var sha := context.Final();
    var b64 := new char[40](_ => '\0');
    Base64.EncodeInto(sha, b64);
    accept := b64[..28];
    SealedIs(text);
  }

  lemma SealedIs(text: seq<byte>)
    ensures Sealed(text) == Base64.Encode(Rfc3174.Digest(text))
  {
  }
}
