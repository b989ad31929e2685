/** The Base64 encoding of section 4 of RFC 4648 (the standard alphabet with `=`
    padding), as `java.util.Base64.getEncoder()` produces it, together with a
    decoder that inverts it. */
module Base64 {
  import opened Text

  type byte = b: int | 0 <= b < 256
  type sextet = v: int | 0 <= v < 64

  /** The character for a 6-bit value: A-Z, a-z, 0-9, '+', '/'. */
  function Symbol(v: sextet): char {
    if v < 26 then ('A' as int + v) as char
    else if v < 52 then ('a' as int + (v - 26)) as char
    else if v < 62 then ('0' as int + (v - 52)) as char
    else if v == 62 then '+'
    else '/'
  }

  predicate IsSymbol(c: char) {
    'A' <= c <= 'Z' || 'a' <= c <= 'z' || '0' <= c <= '9' || c == '+' || c == '/'
  }

  function SymbolValue(c: char): sextet
    requires IsSymbol(c)
  {
    if 'A' <= c <= 'Z' then c as int - 'A' as int
    else if 'a' <= c <= 'z' then c as int - 'a' as int + 26
    else if '0' <= c <= '9' then c as int - '0' as int + 52
    else if c == '+' then 62
    else 63
  }

  lemma SymbolRoundTrip(v: sextet)
    ensures IsSymbol(Symbol(v)) && SymbolValue(Symbol(v)) == v
  {
  }

  /** Three bytes become four characters, six bits each, high bits first. */
  function EncodeGroup(b0: byte, b1: byte, b2: byte): string {
    [Symbol(b0 / 4), Symbol((b0 % 4) * 16 + b1 / 16), Symbol((b1 % 16) * 4 + b2 / 64), Symbol(b2 % 64)]
  }

  /** A final single byte: two characters and two pad characters. */
  function EncodeOne(b0: byte): string {
    [Symbol(b0 / 4), Symbol((b0 % 4) * 16), '=', '=']
  }

  /** A final pair of bytes: three characters and one pad character. */
  function EncodeTwo(b0: byte, b1: byte): string {
    [Symbol(b0 / 4), Symbol((b0 % 4) * 16 + b1 / 16), Symbol((b1 % 16) * 4), '=']
  }

  /** Every three bytes become four characters; a final one or two bytes are padded. */
  function Encode(bs: seq<byte>): (r: string)
    ensures |r| == 4 * ((|bs| + 2) / 3)
    decreases |bs|
  {
    if |bs| == 0 then []
    else if |bs| == 1 then EncodeOne(bs[0])
    else if |bs| == 2 then EncodeTwo(bs[0], bs[1])
    else EncodeGroup(bs[0], bs[1], bs[2]) + Encode(bs[3..])
  }

  /** The encoding uses only the alphabet and `=`, and `=` only in the last two places. */
  lemma {:induction false} EncodeAlphabet(bs: seq<byte>)
    ensures var r := Encode(bs);
      forall i :: 0 <= i < |r| ==> IsSymbol(r[i]) || r[i] == '='
    ensures var r := Encode(bs);
      forall i :: 0 <= i < |r| && r[i] == '=' ==> |r| - 2 <= i
    decreases |bs|
  {
    if |bs| >= 3 {
      var head, tail := EncodeGroup(bs[0], bs[1], bs[2]), Encode(bs[3..]);
      EncodeAlphabet(bs[3..]);
      EncodeStep(bs);
      forall i | 0 <= i < 4
        ensures IsSymbol(head[i])
      {
        SymbolRoundTrip(if i == 0 then bs[0] / 4 else if i == 1 then (bs[0] % 4) * 16 + bs[1] / 16
          else if i == 2 then (bs[1] % 16) * 4 + bs[2] / 64 else bs[2] % 64);
      }
      var r := head + tail;
      forall i | 0 <= i < |r|
        ensures IsSymbol(r[i]) || r[i] == '='
        ensures r[i] == '=' ==> |r| - 2 <= i
      {
        if i >= 4 {
          assert r[i] == tail[i - 4];
        }
      }
    } else if |bs| == 2 {
      SymbolRoundTrip(bs[0] / 4);
      SymbolRoundTrip((bs[0] % 4) * 16 + bs[1] / 16);
      SymbolRoundTrip((bs[1] % 16) * 4);
    } else if |bs| == 1 {
      SymbolRoundTrip(bs[0] / 4);
      SymbolRoundTrip((bs[0] % 4) * 16);
    }
  }

  /** Reads back a padded Base64 text; `None` when it is not one. */
  function Decode(s: string): Option<seq<byte>>
    decreases |s|
  {
    if |s| == 0 then Some([])
    else if |s| < 4 || !IsSymbol(s[0]) || !IsSymbol(s[1]) then None
    else
      var v0, v1 := SymbolValue(s[0]), SymbolValue(s[1]);
      var b0 := v0 * 4 + v1 / 16;
      if |s| == 4 && s[2] == '=' && s[3] == '=' then Some([b0])
      else if !IsSymbol(s[2]) then None
      else
        var v2 := SymbolValue(s[2]);
        var b1 := (v1 % 16) * 16 + v2 / 4;
        if |s| == 4 && s[3] == '=' then Some([b0, b1])
        else if !IsSymbol(s[3]) then None
        else
          var b2 := (v2 % 4) * 64 + SymbolValue(s[3]);
          match Decode(s[4..])
          case None => None
          case Some(rest) => Some([b0, b1, b2] + rest)
  }

  /** The bits of the first byte, split across the first two characters, join again. */
  lemma FirstByteArith(b0: byte, b1: int)
    requires 0 <= b1 < 256
    ensures (b0 / 4) * 4 + ((b0 % 4) * 16 + b1 / 16) / 16 == b0
    ensures ((b0 % 4) * 16 + b1 / 16) % 16 == b1 / 16
  {
    var x := (b0 % 4) * 16 + b1 / 16;
    assert x / 16 == b0 % 4 && x % 16 == b1 / 16;
  }

  /** The bits of the second byte, split across the second and third characters. */
  lemma SecondByteArith(b1: byte, b2: int)
    requires 0 <= b2 < 256
    ensures (b1 / 16) * 16 + ((b1 % 16) * 4 + b2 / 64) / 4 == b1
    ensures ((b1 % 16) * 4 + b2 / 64) % 4 == b2 / 64
  {
    var x := (b1 % 16) * 4 + b2 / 64;
    assert x / 4 == b1 % 16 && x % 4 == b2 / 64;
  }

  /** A full group in front of a text that decodes to `tail` decodes to the group's
      three bytes followed by `tail`. */
  lemma GroupRoundTrip(b0: byte, b1: byte, b2: byte, rest: string, tail: seq<byte>)
    requires Decode(rest) == Some(tail)
    ensures Decode(EncodeGroup(b0, b1, b2) + rest) == Some([b0, b1, b2] + tail)
  {
    var v0, v1, v2, v3 := b0 / 4, (b0 % 4) * 16 + b1 / 16, (b1 % 16) * 4 + b2 / 64, b2 % 64;
    var s := EncodeGroup(b0, b1, b2) + rest;
    assert s[..4] == [Symbol(v0), Symbol(v1), Symbol(v2), Symbol(v3)];
    SymbolRoundTrip(v0);
    SymbolRoundTrip(v1);
    SymbolRoundTrip(v2);
    SymbolRoundTrip(v3);
    FirstByteArith(b0, b1);
    SecondByteArith(b1, b2);
    assert (v2 % 4) * 64 + v3 == b2;
    assert s[4..] == rest;
    assert s[2] != '=' && s[3] != '=';
  }

  lemma OneRoundTrip(b0: byte)
    ensures Decode(EncodeOne(b0)) == Some([b0])
  {
    SymbolRoundTrip(b0 / 4);
    SymbolRoundTrip((b0 % 4) * 16);
    FirstByteArith(b0, 0);
  }

  lemma TwoRoundTrip(b0: byte, b1: byte)
    ensures Decode(EncodeTwo(b0, b1)) == Some([b0, b1])
  {
    var s := EncodeTwo(b0, b1);
    SymbolRoundTrip(b0 / 4);
    SymbolRoundTrip((b0 % 4) * 16 + b1 / 16);
    SymbolRoundTrip((b1 % 16) * 4);
    FirstByteArith(b0, b1);
    SecondByteArith(b1, 0);
    assert s[2] != '=' && s[3] == '=';
  }

  /** One or two bytes are encoded with padding and read back. */
  lemma ShortRoundTrip(bs: seq<byte>)
    requires 0 < |bs| < 3
    ensures Decode(Encode(bs)) == Some(bs)
  {
    if |bs| == 1 {
      OneRoundTrip(bs[0]);
      assert bs == [bs[0]];
    } else {
      TwoRoundTrip(bs[0], bs[1]);
      assert bs == [bs[0], bs[1]];
    }
  }

  lemma EncodeStep(bs: seq<byte>)
    requires |bs| >= 3
    ensures Encode(bs) == EncodeGroup(bs[0], bs[1], bs[2]) + Encode(bs[3..])
  {
  }

  lemma SplitThree<T>(s: seq<T>)
    requires |s| >= 3
    ensures [s[0], s[1], s[2]] + s[3..] == s
  {
  }

  /** When the bytes after the first three round-trip, so do all of them. */
  lemma DecodeEncodeStep(bs: seq<byte>)
    requires |bs| >= 3
    requires Decode(Encode(bs[3..])) == Some(bs[3..])
    ensures Decode(Encode(bs)) == Some(bs)
  {
    var rest := bs[3..];
    EncodeStep(bs);
    GroupRoundTrip(bs[0], bs[1], bs[2], Encode(rest), rest);
    SplitThree(bs);
  }

  /** Decoding inverts encoding: the encoded text determines the bytes. */
  lemma {:induction false} DecodeEncode(bs: seq<byte>)
    ensures Decode(Encode(bs)) == Some(bs)
    decreases |bs|
  {
    if 0 < |bs| < 3 {
      ShortRoundTrip(bs);
    } else if |bs| >= 3 {
      DecodeEncode(bs[3..]);
      DecodeEncodeStep(bs);
    }
  }

  lemma EncodeInjective(a: seq<byte>, b: seq<byte>)
    ensures Encode(a) == Encode(b) ==> a == b
  {
    DecodeEncode(a);
    DecodeEncode(b);
  }
}
