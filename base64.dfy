/** The base64 encoding of section 4 of RFC 4648 (alphabet A-Z a-z 0-9 + /,
    '=' padding), as the `base64` crate's STANDARD engine uses it: encoding
    always pads, and decoding accepts only canonical text (padding only at
    the end, no set bits left over in the last character).

    The codec is written in two layers: bytes to symbols (a symbol is a
    six-bit value, or `Pad` for '='), and symbols to characters. */
module Base64 {
  import opened Basics

  type sym = x: int | 0 <= x <= 64

  const Pad: sym := 64

  // ---------------------------------------------------------------------
  // Bytes and symbols
  // ---------------------------------------------------------------------

  /** Division by the three constants the bit layout uses. */
  lemma DivFour(q: int, r: int)
    requires 0 <= r < 4
    ensures (q * 4 + r) / 4 == q && (q * 4 + r) % 4 == r
  {
  }

  lemma DivSixteen(q: int, r: int)
    requires 0 <= r < 16
    ensures (q * 16 + r) / 16 == q && (q * 16 + r) % 16 == r
  {
  }

  lemma DivSixtyFour(q: int, r: int)
    requires 0 <= r < 64
    ensures (q * 64 + r) / 64 == q && (q * 64 + r) % 64 == r
  {
  }

  function EncodeGroup(a: uint8, b: uint8, c: uint8): seq<sym> {
    [a / 4, (a % 4) * 16 + b / 16, (b % 16) * 4 + c / 64, c % 64]
  }

  function EncodeSyms(b: Bytes): (s: seq<sym>)
    ensures |s| % 4 == 0
    ensures |s| == 0 <==> |b| == 0
    decreases |b|
  {
    if |b| == 0 then []
    else if |b| == 1 then [b[0] / 4, (b[0] % 4) * 16, Pad, Pad]
    else if |b| == 2 then [b[0] / 4, (b[0] % 4) * 16 + b[1] / 16, (b[1] % 16) * 4, Pad]
    else EncodeGroup(b[0], b[1], b[2]) + EncodeSyms(b[3..])
  }

  /** Four symbols without padding. */
  function DecodeQuad(q: seq<sym>): Option<Bytes>
    requires |q| == 4
  {
    if q[0] < 64 && q[1] < 64 && q[2] < 64 && q[3] < 64
    then Some([q[0] as int * 4 + q[1] / 16, (q[1] as int % 16) * 16 + q[2] / 4, (q[2] as int % 4) * 64 + q[3]])
    else None
  }

  /** The last four symbols, which may end in two pads (one byte) or one
      (two bytes); the bits the padding leaves over must be zero. */
  function DecodeFinal(q: seq<sym>): Option<Bytes>
    requires |q| == 4
  {
    if q[2] == Pad && q[3] == Pad then
      if q[0] < 64 && q[1] < 64 && q[1] % 16 == 0
      then Some([q[0] as int * 4 + q[1] / 16])
      else None
    else if q[3] == Pad then
      if q[0] < 64 && q[1] < 64 && q[2] < 64 && q[2] % 4 == 0
      then Some([q[0] as int * 4 + q[1] / 16, (q[1] as int % 16) * 16 + q[2] / 4])
      else None
    else DecodeQuad(q)
  }

  function DecodeSyms(s: seq<sym>): Option<Bytes>
    decreases |s|
  {
    if |s| == 0 then Some([])
    else if |s| < 4 then None
    else if |s| == 4 then DecodeFinal(s)
    else
      match DecodeQuad(s[..4])
      case None => None
      case Some(head) =>
        match DecodeSyms(s[4..])
        case None => None
        case Some(tail) => Some(head + tail)
  }

  lemma GroupRoundTrip(a: uint8, b: uint8, c: uint8)
    ensures DecodeQuad(EncodeGroup(a, b, c)) == Some([a, b, c])
  {
    DivSixteen(a % 4, b / 16);
    DivFour(b % 16, c / 64);
  }

  lemma GroupCanonical(q: seq<sym>, d: Bytes)
    requires |q| == 4 && DecodeQuad(q) == Some(d)
    ensures EncodeGroup(d[0], d[1], d[2]) == q
  {
    DivFour(q[0], q[1] / 16);
    DivSixteen(q[1] % 16, q[2] / 4);
    DivSixtyFour(q[2] % 4, q[3]);
  }

  lemma OneByteRoundTrip(a: uint8)
    ensures DecodeFinal([a / 4, (a % 4) * 16, Pad, Pad]) == Some([a])
  {
    DivSixteen(a % 4, 0);
  }

  lemma TwoByteRoundTrip(a: uint8, b: uint8)
    ensures DecodeFinal([a / 4, (a % 4) * 16 + b / 16, (b % 16) * 4, Pad]) == Some([a, b])
  {
    DivSixteen(a % 4, b / 16);
    DivFour(b % 16, 0);
  }

  lemma OneByteSyms(b: Bytes)
    requires |b| == 1
    ensures DecodeSyms(EncodeSyms(b)) == Some(b)
  {
    var q := [b[0] / 4, (b[0] % 4) * 16, Pad, Pad];
    assert EncodeSyms(b) == q;
    OneByteRoundTrip(b[0]);
    assert [b[0]] == b;
  }

  lemma TwoByteSyms(b: Bytes)
    requires |b| == 2
    ensures DecodeSyms(EncodeSyms(b)) == Some(b)
  {
    var q := [b[0] / 4, (b[0] % 4) * 16 + b[1] / 16, (b[1] % 16) * 4, Pad];
    assert EncodeSyms(b) == q;
    TwoByteRoundTrip(b[0], b[1]);
    assert [b[0], b[1]] == b;
  }

  /** An unpadded group in front of a whole text decodes group by group. */
  lemma DecodeCons(q: seq<sym>, rest: seq<sym>, head: Bytes, tail: Bytes)
    requires |q| == 4 && DecodeQuad(q) == Some(head)
    requires DecodeSyms(rest) == Some(tail)
    ensures DecodeSyms(q + rest) == Some(head + tail)
  {
    var s := q + rest;
    assert s[..4] == q && s[4..] == rest;
    if rest == [] {
      assert s == q;
      assert head + tail == head;
    }
  }

  lemma {:induction false} SymsRoundTrip(b: Bytes)
    ensures DecodeSyms(EncodeSyms(b)) == Some(b)
    decreases |b|
  {
    if |b| == 0 {
    } else if |b| == 1 {
      OneByteSyms(b);
    } else if |b| == 2 {
      TwoByteSyms(b);
    } else {
      SymsRoundTrip(b[3..]);
      GroupRoundTrip(b[0], b[1], b[2]);
      DecodeCons(EncodeGroup(b[0], b[1], b[2]), EncodeSyms(b[3..]), [b[0], b[1], b[2]], b[3..]);
      assert [b[0], b[1], b[2]] + b[3..] == b;
    }
  }

  /** The last group, padded or not, is the encoding of what it decodes to. */
  lemma FinalCanonical(q: seq<sym>, b: Bytes)
    requires |q| == 4 && DecodeFinal(q) == Some(b)
    ensures EncodeSyms(b) == q
  {
    if q[2] == Pad && q[3] == Pad {
      DivFour(q[0], q[1] / 16);
      DivSixteen(q[1] / 16, 0);
    } else if q[3] == Pad {
      DivFour(q[0], q[1] / 16);
      DivSixteen(q[1] % 16, q[2] / 4);
      DivFour(q[2] / 4, 0);
    } else {
      GroupCanonical(q, b);
    }
  }

  lemma {:induction false} SymsCanonical(s: seq<sym>, b: Bytes)
    requires DecodeSyms(s) == Some(b)
    ensures EncodeSyms(b) == s
    decreases |s|
  {
    if |s| == 0 {
    } else if |s| == 4 {
      FinalCanonical(s, b);
    } else {
      var head := DecodeQuad(s[..4]).value;
      var tail := DecodeSyms(s[4..]).value;
      SymsCanonical(s[4..], tail);
      GroupCanonical(s[..4], head);
      assert b[..3] == head && b[3..] == tail;
      assert s == s[..4] + s[4..];
    }
  }

  lemma {:induction false} SymsLength(b: Bytes)
    ensures |EncodeSyms(b)| == 4 * ((|b| + 2) / 3)
    decreases |b|
  {
    if |b| > 2 {
      SymsLength(b[3..]);
    }
  }

  // ---------------------------------------------------------------------
  // Symbols and characters
  // ---------------------------------------------------------------------

  predicate IsBase64Char(c: char) {
    ('A' <= c <= 'Z') || ('a' <= c <= 'z') || ('0' <= c <= '9') || c == '+' || c == '/' || c == '='
  }

  function CharOf(x: sym): (c: char)
    ensures IsBase64Char(c)
  {
    if x < 26 then ('A' as int + x) as char
    else if x < 52 then ('a' as int + (x - 26)) as char
    else if x < 62 then ('0' as int + (x - 52)) as char
    else if x == 62 then '+'
    else if x == 63 then '/'
    else '='
  }

  function SymOf(c: char): (x: sym)
    requires IsBase64Char(c)
    ensures CharOf(x) == c
  {
    if 'A' <= c <= 'Z' then c as int - 'A' as int
    else if 'a' <= c <= 'z' then c as int - 'a' as int + 26
    else if '0' <= c <= '9' then c as int - '0' as int + 52
    else if c == '+' then 62
    else if c == '/' then 63
    else Pad
  }

  lemma SymOfCharOf(x: sym)
    ensures SymOf(CharOf(x)) == x
  {
  }

  function Chars(s: seq<sym>): (t: string)
    ensures |t| == |s|
  {
    seq(|s|, i requires 0 <= i < |s| => CharOf(s[i]))
  }

  /** The symbols of a text, or None when it holds a character outside the
      alphabet and '='. */
  function Syms(t: string): Option<seq<sym>> {
    if forall i :: 0 <= i < |t| ==> IsBase64Char(t[i])
    then Some(seq(|t|, i requires 0 <= i < |t| && IsBase64Char(t[i]) => SymOf(t[i])))
    else None
  }

  lemma SymsOfChars(s: seq<sym>)
    ensures Syms(Chars(s)) == Some(s)
  {
    var t := Chars(s);
    assert forall i :: 0 <= i < |t| ==> t[i] == CharOf(s[i]) && IsBase64Char(t[i]);
    var u := seq(|t|, i requires 0 <= i < |t| && IsBase64Char(t[i]) => SymOf(t[i]));
    assert Syms(t) == Some(u);
    forall i | 0 <= i < |s|
      ensures u[i] == s[i]
    {
      SymOfCharOf(s[i]);
    }
    assert u == s;
  }

  lemma CharsOfSyms(t: string, s: seq<sym>)
    requires Syms(t) == Some(s)
    ensures Chars(s) == t
  {
  }

  // ---------------------------------------------------------------------
  // Text
  // ---------------------------------------------------------------------

  function Encode(b: Bytes): (t: string)
    ensures |t| == 4 * ((|b| + 2) / 3)
  {
    SymsLength(b);
    Chars(EncodeSyms(b))
  }

  function Decode(t: string): Option<Bytes> {
    match Syms(t)
    case None => None
    case Some(s) => DecodeSyms(s)
  }

  /** Decoding an encoding gives the bytes back. */
  lemma EncodeRoundTrip(b: Bytes)
    ensures Decode(Encode(b)) == Some(b)
  {
    SymsOfChars(EncodeSyms(b));
    SymsRoundTrip(b);
  }

  /** Decoding accepts only what encoding produces. */
  lemma DecodeCanonical(t: string, b: Bytes)
    requires Decode(t) == Some(b)
    ensures Encode(b) == t
  {
    var s := Syms(t).value;
    CharsOfSyms(t, s);
    SymsCanonical(s, b);
  }

  /** Decoding is the exact inverse of encoding. */
  lemma DecodeIffEncode(t: string, b: Bytes)
    ensures Decode(t) == Some(b) <==> Encode(b) == t
  {
    if Decode(t) == Some(b) {
      DecodeCanonical(t, b);
    }
    if Encode(b) == t {
      EncodeRoundTrip(b);
    }
  }
}
