/** Length-prefixed frames of the persistent cache (src/proto_cache.rs). */
module Codec {
  import opened Collections

  type byte = x: int | 0 <= x < 256

  datatype CodecError = DecodeError | MessageError

  /** The message codec is abstract: encoding to bytes, and decoding, which may fail. */
  datatype MessageCodec<!T> = MessageCodec(encode: T -> seq<byte>, decode: seq<byte> -> Option<T>)

  /** Messages survive a round trip, and their length fits in 64 bits. */
  ghost predicate Lawful<T(!new)>(c: MessageCodec<T>) {
    forall m :: c.decode(c.encode(m)) == Some(m) && |c.encode(m)| < Pow256(8)
  }

  // ---- Little-endian numbers ----

  function Pow256(k: nat): (r: nat)
    ensures r > 0
  {
    if k == 0 then 1 else 256 * Pow256(k - 1)
  }

  function ToLeBytes(n: nat, k: nat): (r: seq<byte>)
    ensures |r| == k
  {
    if k == 0 then [] else [n % 256] + ToLeBytes(n / 256, k - 1)
  }

  function FromLeBytes(bytes: seq<byte>): nat {
    if bytes == [] then 0 else bytes[0] + 256 * FromLeBytes(bytes[1..])
  }

  lemma {:induction false} LeRoundTrip(n: nat, k: nat)
    requires n < Pow256(k)
    ensures FromLeBytes(ToLeBytes(n, k)) == n
  {
    if k == 0 {
    } else {
      var rest := ToLeBytes(n / 256, k - 1);
      LeRoundTrip(n / 256, k - 1);
      assert ([n % 256] + rest)[1..] == rest;
    }
  }

  /** The bytes that come first count least. */
  lemma {:induction false} LeConcat(a: seq<byte>, b: seq<byte>, y: nat)
    requires y == FromLeBytes(b)
    ensures FromLeBytes(a + b) == FromLeBytes(a) + Pow256(|a|) * y
    decreases |a|
  {
    if a == [] {
      assert a + b == b;
    } else {
      assert (a + b)[1..] == a[1..] + b;
      LeConcat(a[1..], b, y);
      Distribute(FromLeBytes(a[1..]), Pow256(|a| - 1), y);
    }
  }

  lemma Distribute(x: nat, p: nat, y: nat)
    ensures 256 * (x + p * y) == 256 * x + (256 * p) * y
  {
  }

  // ---- Frames ----

  function Frame<T>(c: MessageCodec<T>, m: T): (r: seq<byte>)
    ensures |r| == 8 + |c.encode(m)|
  {
    ToLeBytes(|c.encode(m)|, 8) + c.encode(m)
  }

  function Encode<T>(c: MessageCodec<T>, ms: seq<T>): seq<byte> {
    if ms == [] then [] else Frame(c, ms[0]) + Encode(c, ms[1..])
  }

  function Decode<T>(c: MessageCodec<T>, bytes: seq<byte>): Result<seq<T>, CodecError> {
    if bytes == [] then Ok([])
    else if |bytes| < 8 then Err(DecodeError)
    else
      var size := FromLeBytes(bytes[..8]);
      if |bytes| - 8 < size then Err(DecodeError)
      else match c.decode(bytes[8..8 + size])
           case None => Err(MessageError)
           case Some(m) => Prepend([m], Decode(c, bytes[8 + size..]))
  }

  function Prepend<T>(front: seq<T>, r: Result<seq<T>, CodecError>): Result<seq<T>, CodecError> {
    match r
    case Ok(rest) => Ok(front + rest)
    case Err(e) => Err(e)
  }

  method EncodeMessages<T>(c: MessageCodec<T>, ms: seq<T>) returns (r: seq<byte>)
    ensures r == Encode(c, ms)
  {
    r := [];
    for k := 0 to |ms|
      invariant r + Encode(c, ms[k..]) == Encode(c, ms)
    {
      var encoded := c.encode(ms[k]);
      var size := ToLeBytes(|encoded|, 8);
      assert ms[k..][1..] == ms[k + 1..];
      assert r + (Frame(c, ms[k]) + Encode(c, ms[k + 1..])) == r + size + encoded + Encode(c, ms[k + 1..]);
      r := r + size;
      r := r + encoded;
    }
    assert r + [] == r;
  }

  method DecodeMessages<T>(c: MessageCodec<T>, bytes: seq<byte>) returns (r: Result<seq<T>, CodecError>)
    ensures r == Decode(c, bytes)
  {
    var encoded := bytes;
    var result: seq<T> := [];
    assert Prepend([], Decode(c, bytes)) == Decode(c, bytes) by {
      if Decode(c, bytes).Ok? {
        assert [] + Decode(c, bytes).value == Decode(c, bytes).value;
      }
    }
    while encoded != []
      invariant Decode(c, bytes) == Prepend(result, Decode(c, encoded))
      decreases |encoded|
    {
      if |encoded| < 8 {
        return Err(DecodeError);
      }
      var size := FromLeBytes(encoded[..8]);
      ghost var was := encoded;
      encoded := encoded[8..];
      if |encoded| < size {
        return Err(DecodeError);
      }
      assert encoded[..size] == was[8..8 + size] && encoded[size..] == was[8 + size..];
      var message := c.decode(encoded[..size]);
      if message.None? {
        return Err(MessageError);
      }
      PrependTwice(result, [message.value], Decode(c, encoded[size..]));
      result := result + [message.value];
      encoded := encoded[size..];
    }
    assert result + [] == result;
    return Ok(result);
  }

  lemma PrependTwice<T>(a: seq<T>, b: seq<T>, r: Result<seq<T>, CodecError>)
    ensures Prepend(a, Prepend(b, r)) == Prepend(a + b, r)
  {
    if r.Ok? {
      assert a + (b + r.value) == a + b + r.value;
    }
  }

  /** A length that does not fit, and a message that cannot be decoded, fail in different ways. */
  lemma FirstFrame<T>(c: MessageCodec<T>, bytes: seq<byte>)
    requires bytes != []
    ensures |bytes| < 8 || |bytes| - 8 < FromLeBytes(bytes[..8]) ==> Decode(c, bytes) == Err(DecodeError)
    ensures 8 <= |bytes| && FromLeBytes(bytes[..8]) <= |bytes| - 8 ==>
              var size := FromLeBytes(bytes[..8]);
              var m, rest := c.decode(bytes[8..8 + size]), Decode(c, bytes[8 + size..]);
              if m.None? then Decode(c, bytes) == Err(MessageError)
              else if rest.Err? then Decode(c, bytes) == rest
              else Decode(c, bytes) == Ok([m.value] + rest.value)
  {
  }

  // ---- Round trip ----

  /** Decoding a frame followed by anything. */
  lemma DecodeFrame<T(!new)>(c: MessageCodec<T>, m: T, rest: seq<byte>)
    requires Lawful(c)
    ensures Decode(c, Frame(c, m) + rest) == Prepend([m], Decode(c, rest))
  {
    var payload := c.encode(m);
    var bytes := Frame(c, m) + rest;
    assert bytes[..8] == ToLeBytes(|payload|, 8);
    LeRoundTrip(|payload|, 8);
    assert bytes[8..8 + |payload|] == payload;
    assert bytes[8 + |payload|..] == rest;
  }

  lemma {:induction false} DecodeEncodedThen<T(!new)>(c: MessageCodec<T>, ms: seq<T>, rest: seq<byte>)
    requires Lawful(c)
    ensures Decode(c, Encode(c, ms) + rest) == Prepend(ms, Decode(c, rest))
    decreases |ms|
  {
    if ms == [] {
      assert [] + rest == rest;
      if Decode(c, rest).Ok? {
        assert [] + Decode(c, rest).value == Decode(c, rest).value;
      }
    } else {
      var tail := Encode(c, ms[1..]);
      assert Frame(c, ms[0]) + tail + rest == Frame(c, ms[0]) + (tail + rest);
      DecodeFrame(c, ms[0], tail + rest);
      DecodeEncodedThen(c, ms[1..], rest);
      PrependTwice([ms[0]], ms[1..], Decode(c, rest));
      assert [ms[0]] + ms[1..] == ms;
    }
  }

  lemma RoundTrip<T(!new)>(c: MessageCodec<T>, ms: seq<T>)
    requires Lawful(c)
    ensures Decode(c, Encode(c, ms)) == Ok(ms)
  {
    DecodeEncodedThen(c, ms, []);
    assert Encode(c, ms) + [] == Encode(c, ms) && ms + [] == ms;
  }

  lemma ConcatenatedEncodings<T(!new)>(c: MessageCodec<T>, a: seq<T>, b: seq<T>)
    requires Lawful(c)
    ensures Decode(c, Encode(c, a) + Encode(c, b)) == Ok(a + b)
  {
    DecodeEncodedThen(c, a, Encode(c, b));
    RoundTrip(c, b);
  }

  /** A cut inside a frame makes the decoding fail. */
  lemma CutFrameFails<T(!new)>(c: MessageCodec<T>, m: T, rest: seq<byte>, n: nat)
    requires Lawful(c) && 0 < n < |Frame(c, m)|
    ensures Decode(c, (Frame(c, m) + rest)[..n]) == Err(DecodeError)
  {
    var payload := c.encode(m);
    var cut := (Frame(c, m) + rest)[..n];
    if n >= 8 {
      assert cut[..8] == ToLeBytes(|payload|, 8);
      LeRoundTrip(|payload|, 8);
    }
  }

  /** A prefix of an encoding decodes exactly if it ends at a frame boundary, and then to the messages before it. */
  lemma {:induction false} PrefixDecodes<T(!new)>(c: MessageCodec<T>, ms: seq<T>, n: nat) returns (k: nat)
    requires Lawful(c) && n <= |Encode(c, ms)|
    ensures k <= |ms| && |Encode(c, ms[..k])| <= n
    ensures k < |ms| ==> n < |Encode(c, ms[..k + 1])|
    ensures Decode(c, Encode(c, ms)[..n]) == if n == |Encode(c, ms[..k])| then Ok(ms[..k]) else Err(DecodeError)
    decreases |ms|
  {
    k := 0;
    if ms == [] {
    } else {
      var f, tail := Frame(c, ms[0]), Encode(c, ms[1..]);
      assert Encode(c, ms[..1]) == f + [] == f by {
        assert ms[..1][1..] == [];
      }
      if n >= |f| {
        var j := PrefixDecodes(c, ms[1..], n - |f|);
        k := j + 1;
        assert (f + tail)[..n] == f + tail[..n - |f|];
        DecodeFrame(c, ms[0], tail[..n - |f|]);
        assert ms[..k][1..] == ms[1..][..j] && [ms[0]] + ms[1..][..j] == ms[..k];
        if k < |ms| {
          assert ms[..k + 1][1..] == ms[1..][..j + 1];
        }
      } else if n > 0 {
        CutFrameFails(c, ms[0], tail, n);
      }
    }
  }
}
