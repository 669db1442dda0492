/**
 The length-prefixed transcript encoding that every signature and every HPKE context string is
 computed over: each field is written as its length in eight big-endian bytes followed by the
 field itself. The signing and HPKE primitives behind it are not modelled.
 */
module Transcript {
  import opened Format

  const LENGTH_BYTES: nat := 8
  const U64_MODULUS: nat := 0x1_0000_0000_0000_0000

  /** "thorax.signature.v1" and "thorax.hpke-info.v1" as ASCII. */
  const SIGNATURE_DOMAIN: Bytes :=
    [116, 104, 111, 114, 97, 120, 46, 115, 105, 103, 110, 97, 116, 117, 114, 101, 46, 118, 49]
  const HPKE_INFO_DOMAIN: Bytes :=
    [116, 104, 111, 114, 97, 120, 46, 104, 112, 107, 101, 45, 105, 110, 102, 111, 46, 118, 49]

  /** The low `width` base-256 digits of `n`, most significant first. */
  function BigEndian(n: nat, width: nat): (bytes: Bytes)
    ensures |bytes| == width
    decreases width, n
  {
    if width == 0 then [] else BigEndian(n / 256, width - 1) + [n % 256]
  }

  /** The number a big-endian digit string denotes: the reading side of the length header. */
  function BigEndianValue(bytes: Bytes): nat {
    if bytes == [] then 0
    else 256 * BigEndianValue(bytes[..|bytes| - 1]) + bytes[|bytes| - 1]
  }

  function Power256(e: nat): nat {
    if e == 0 then 1 else 256 * Power256(e - 1)
  }

  /** A header of `width` digits denotes any length below 256^width. */
  lemma {:induction false} BigEndianValueOfDigits(n: nat, width: nat)
    requires n < Power256(width)
    ensures BigEndianValue(BigEndian(n, width)) == n
    decreases width
  {
    if width == 0 {
    } else {
      var bytes := BigEndian(n, width);
      assert bytes[..width - 1] == BigEndian(n / 256, width - 1);
      BigEndianValueOfDigits(n / 256, width - 1);
    }
  }

  lemma PowerOfLengthHeader()
    ensures Power256(LENGTH_BYTES) == U64_MODULUS
  {
    assert Power256(4) == 256 * 256 * 256 * 256;
    assert Power256(8) == 256 * 256 * 256 * 256 * Power256(4);
  }

  /** The cast to `u64`, which wraps. */
  function AsU64(n: nat): nat {
    if n < U64_MODULUS then n else n % U64_MODULUS
  }

  /** One field as `append_transcript` writes it. */
  function Framed(field: Bytes): Bytes {
    BigEndian(AsU64(|field|), LENGTH_BYTES) + field
  }

  function Encode(fields: seq<Bytes>): Bytes {
    if fields == [] then [] else Framed(fields[0]) + Encode(fields[1..])
  }

  /** Every field is one a 64-bit machine can hold. */
  predicate Addressable(fields: seq<Bytes>) {
    forall i :: 0 <= i < |fields| ==> |fields[i]| < U64_MODULUS
  }

  lemma HeaderValue(length: nat)
    requires length < U64_MODULUS
    ensures BigEndianValue(BigEndian(length, LENGTH_BYTES)) == length
  {
    PowerOfLengthHeader();
    BigEndianValueOfDigits(length, LENGTH_BYTES);
  }

  /** Equal texts with headers of one length have equal headers and equal remainders. */
  lemma SameFront(front: Bytes, rest: Bytes, front': Bytes, rest': Bytes)
    requires |front| == |front'| && front + rest == front' + rest'
    ensures front == front' && rest == rest'
  {
    assert (front + rest)[..|front|] == front && (front' + rest')[..|front|] == front';
    assert (front + rest)[|front|..] == rest && (front' + rest')[|front|..] == rest';
  }

  lemma Associative(a: Bytes, b: Bytes, c: Bytes)
    ensures a + b + c == a + (b + c)
  {
  }

  lemma FramedIsHeaderFirst(field: Bytes, rest: Bytes)
    requires |field| < U64_MODULUS
    ensures Framed(field) + rest == BigEndian(|field|, LENGTH_BYTES) + (field + rest)
  {
    Associative(BigEndian(|field|, LENGTH_BYTES), field, rest);
  }

  /** A framed field can be read off the front of any text that starts with it. */
  lemma HeaderDeterminesLength(a: Bytes, b: Bytes, restA: Bytes, restB: Bytes)
    requires |a| < U64_MODULUS && |b| < U64_MODULUS
    requires Framed(a) + restA == Framed(b) + restB
    ensures a == b && restA == restB
  {
    FramedIsHeaderFirst(a, restA);
    FramedIsHeaderFirst(b, restB);
    SameFront(BigEndian(|a|, LENGTH_BYTES), a + restA, BigEndian(|b|, LENGTH_BYTES), b + restB);
    HeaderValue(|a|);
    HeaderValue(|b|);
    SameFront(a, restA, b, restB);
  }

  lemma {:induction false} EncodeConcat(fields: seq<Bytes>, more: seq<Bytes>)
    ensures Encode(fields + more) == Encode(fields) + Encode(more)
  {
    if fields == [] {
      assert fields + more == more;
    } else {
      assert (fields + more)[1..] == fields[1..] + more;
      EncodeConcat(fields[1..], more);
    }
  }

  lemma {:induction false} ReadBack(fields: seq<Bytes>, tail: Bytes, others: seq<Bytes>)
    requires Addressable(fields) && Addressable(others)
    requires Encode(fields) + tail == Encode(others)
    ensures fields <= others
  {
    if fields == [] {
    } else {
      var rest := Encode(fields[1..]) + tail;
      assert Encode(others) == Framed(fields[0]) + rest;
      assert |Encode(others)| > 0;
      HeaderDeterminesLength(fields[0], others[0], rest, Encode(others[1..]));
      ReadBack(fields[1..], tail, others[1..]);
      assert fields[0] == others[0] && fields[1..] <= others[1..];
    }
  }

  /** The encoding is prefix-faithful: one transcript is a prefix of another exactly when its
      field list is a prefix of the other's. */
  lemma EncodePrefixIffFieldsPrefix(fields: seq<Bytes>, others: seq<Bytes>)
    requires Addressable(fields) && Addressable(others)
    ensures Encode(fields) <= Encode(others) <==> fields <= others
  {
    if Encode(fields) <= Encode(others) {
      var tail := Encode(others)[|Encode(fields)|..];
      assert Encode(fields) + tail == Encode(others);
      ReadBack(fields, tail, others);
    }
    if fields <= others {
      var more := others[|fields|..];
      assert others == fields + more;
      EncodeConcat(fields, more);
    }
  }

  /** The encoding determines the field list. */
  lemma EncodeInjective(fields: seq<Bytes>, others: seq<Bytes>)
    requires Addressable(fields) && Addressable(others)
    ensures Encode(fields) == Encode(others) <==> fields == others
  {
    EncodePrefixIffFieldsPrefix(fields, others);
    EncodePrefixIffFieldsPrefix(others, fields);
  }

  /** The growable byte buffer a transcript is assembled in. */
  class TranscriptBuffer {
    var bytes: Bytes

    constructor ()
      ensures bytes == []
    {
      bytes := [];
    }

    method AppendTranscript(field: Bytes)
      modifies this
      ensures bytes == old(bytes) + Framed(field)
    {
      bytes := bytes + BigEndian(AsU64(|field|), LENGTH_BYTES);
      bytes := bytes + field;
    }
  }

  lemma EncodeTwo(a: Bytes, b: Bytes)
    ensures Encode([a, b]) == [] + Framed(a) + Framed(b)
  {
    assert [a, b][1..] == [b];
    assert Encode([b]) == Framed(b) + Encode([]);
  }

  lemma EncodeThree(a: Bytes, b: Bytes, c: Bytes)
    ensures Encode([a, b, c]) == [] + Framed(a) + Framed(b) + Framed(c)
  {
    assert [a, b, c][1..] == [b, c];
    EncodeTwo(b, c);
  }

  method SignatureTranscript(domain: Bytes, message: Bytes) returns (transcript: Bytes)
    ensures transcript == Encode([SIGNATURE_DOMAIN, domain, message])
  {
    EncodeThree(SIGNATURE_DOMAIN, domain, message);
    var out := new TranscriptBuffer();
    out.AppendTranscript(SIGNATURE_DOMAIN);
    out.AppendTranscript(domain);
    out.AppendTranscript(message);
    transcript := out.bytes;
  }

  method HpkeInfo(info: Bytes) returns (transcript: Bytes)
    ensures transcript == Encode([HPKE_INFO_DOMAIN, info])
  {
    EncodeTwo(HPKE_INFO_DOMAIN, info);
    var out := new TranscriptBuffer();
    out.AppendTranscript(HPKE_INFO_DOMAIN);
    out.AppendTranscript(info);
    transcript := out.bytes;
  }

  /** Distinct (domain, message) pairs never share a signature transcript, and no signature
      transcript is ever an HPKE context string. */
  lemma TranscriptsSeparateDomains(domain: Bytes, message: Bytes, domain': Bytes, message': Bytes, info: Bytes)
    requires |domain| < U64_MODULUS && |message| < U64_MODULUS
    requires |domain'| < U64_MODULUS && |message'| < U64_MODULUS && |info| < U64_MODULUS
    ensures Encode([SIGNATURE_DOMAIN, domain, message]) == Encode([SIGNATURE_DOMAIN, domain', message'])
            <==> domain == domain' && message == message'
    ensures !(Encode([HPKE_INFO_DOMAIN, info]) <= Encode([SIGNATURE_DOMAIN, domain, message]))
    ensures !(Encode([SIGNATURE_DOMAIN, domain, message]) <= Encode([HPKE_INFO_DOMAIN, info]))
  {
    var one, two := [SIGNATURE_DOMAIN, domain, message], [SIGNATURE_DOMAIN, domain', message'];
    EncodeInjective(one, two);
    assert one == two <==> one[1] == two[1] && one[2] == two[2];
    var hpke := [HPKE_INFO_DOMAIN, info];
    EncodePrefixIffFieldsPrefix(hpke, one);
    EncodePrefixIffFieldsPrefix(one, hpke);
    assert HPKE_INFO_DOMAIN[7] != SIGNATURE_DOMAIN[7];
    assert hpke[0] != one[0];
  }

  /** The two fixed domains, character by character. */
  lemma DomainsSpelled(i: nat)
    requires i < 19
    ensures |SIGNATURE_DOMAIN| == 19 == |HPKE_INFO_DOMAIN|
    ensures SIGNATURE_DOMAIN[i] == "thorax.signature.v1"[i] as int
    ensures HPKE_INFO_DOMAIN[i] == "thorax.hpke-info.v1"[i] as int
  {
  }
}
