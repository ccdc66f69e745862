/** Base64 as section 4 of RFC 4648 defines it: the encoder against that section's strict decoder. */
module Base64 {
  import opened Arithmetic
  import opened Wrappers

  type Byte = b: nat | b < 256

  // ------------------------------------------------------------------ the alphabet

  const UPPER := "ABCDEFGHIJKLMNOPQRSTUVWXYZ"
  const LOWER := "abcdefghijklmnopqrstuvwxyz"
  const DIGITS := "0123456789"
  const CHARS := UPPER + LOWER + DIGITS + "+/"

  /** The digit of a value below 64: its entry in the table, which `DigitIsTable` shows to be the alphabet. */
  function Digit(v: nat): char
    requires v < 64
  {
    if v < 26 then 'A' + v as char
    else if v < 52 then 'a' + (v - 26) as char
    else if v < 62 then '0' + (v - 52) as char
    else if v == 62 then '+'
    else '/'
  }

  lemma DigitIsTable(v: nat)
    requires v < 64
    ensures |CHARS| == 64 && CHARS[v] == Digit(v)
  {
    assert |UPPER| == 26 && |LOWER| == 26 && |DIGITS| == 10;
    if v < 26 { assert CHARS[v] == UPPER[v]; }
    else if v < 52 { assert CHARS[v] == LOWER[v - 26]; }
    else if v < 62 { assert CHARS[v] == DIGITS[v - 52]; }
  }

  /** The value of a digit, by the ranges of the table in section 4. */
  function Value(c: char): (v: Option<nat>)
    ensures v.Some? ==> v.value < 64
  {
    if 'A' <= c <= 'Z' then Some(c as int - 'A' as int)
    else if 'a' <= c <= 'z' then Some(c as int - 'a' as int + 26)
    else if '0' <= c <= '9' then Some(c as int - '0' as int + 52)
    else if c == '+' then Some(62)
    else if c == '/' then Some(63)
    else None
  }

  lemma ValueOfDigit(v: nat)
    requires v < 64
    ensures Value(Digit(v)) == Some(v) && Digit(v) != '='
  {
  }

  lemma DigitOfValue(c: char)
    requires Value(c).Some?
    ensures Digit(Value(c).value) == c && c != '='
  {
  }

  // ------------------------------------------------------------------ encoding

  /** One to three bytes, the missing ones being 0, as four digits of which the last ones are pads. */
  function Group(b0: nat, b1: nat, b2: nat, n: nat): (r: string)
    requires b0 < 256 && b1 < 256 && b2 < 256 && 1 <= n <= 3
    ensures |r| == 4
  {
    [Digit(b0 / 4), Digit(b0 % 4 * 16 + b1 / 16),
     if n > 1 then Digit(b1 % 16 * 4 + b2 / 64) else '=', if n > 2 then Digit(b2 % 64) else '=']
  }

  function GroupOf(bytes: seq<Byte>): (r: string)
    requires 1 <= |bytes| <= 3
    ensures |r| == 4
  {
    Group(bytes[0], if |bytes| > 1 then bytes[1] else 0, if |bytes| > 2 then bytes[2] else 0, |bytes|)
  }

  function Encode(input: seq<Byte>): string
  {
    if input == [] then ""
    else if |input| < 3 then GroupOf(input)
    else GroupOf(input[..3]) + Encode(input[3..])
  }

  lemma Sextets(a: nat, b: nat, c: nat, d: nat)
    requires a < 64 && b < 64 && c < 64 && d < 64
    ensures var n := a * 0x40000 + b * 0x1000 + c * 0x40 + d;
            n / 0x40000 % 64 == a && n / 0x1000 % 64 == b && n / 0x40 % 64 == c && n % 64 == d
  {
    var n := a * 0x40000 + b * 0x1000 + c * 0x40 + d;
    DivMod(n, 0x40000, a, b * 0x1000 + c * 0x40 + d);
    DivMod(n, 0x1000, a * 64 + b, c * 0x40 + d);
    DivMod(n, 0x40, a * 0x1000 + b * 64 + c, d);
  }

  lemma Split(b0: nat, b1: nat, b2: nat)
    requires b0 < 256 && b1 < 256 && b2 < 256
    ensures var n := b0 * 0x10000 + b1 * 0x100 + b2;
            && n / 0x40000 % 64 == b0 / 4
            && n / 0x1000 % 64 == b0 % 4 * 16 + b1 / 16
            && n / 0x40 % 64 == b1 % 16 * 4 + b2 / 64
            && n % 64 == b2 % 64
  {
    Sextets(b0 / 4, b0 % 4 * 16 + b1 / 16, b1 % 16 * 4 + b2 / 64, b2 % 64);
  }

  lemma FourPushes(s: string, a: char, b: char, c: char, d: char)
    ensures s + [a] + [b] + [c] + [d] == s + [a, b, c, d]
  {
  }

  /** The loop body: four digits, pads where the chunk is short. */
  method PushGroup(before: string, chunk: seq<Byte>) returns (result: string)
    requires 1 <= |chunk| <= 3
    ensures result == before + GroupOf(chunk)
  {
    var b0: nat := chunk[0];
    var b1: nat := if |chunk| > 1 then chunk[1] else 0;
    var b2: nat := if |chunk| > 2 then chunk[2] else 0;
    var combined := b0 * 0x10000 + b1 * 0x100 + b2;
    var c0, c1 := Digit(combined / 0x40000 % 64), Digit(combined / 0x1000 % 64);
    var c2 := if |chunk| > 1 then Digit(combined / 0x40 % 64) else '=';
    var c3 := if |chunk| > 2 then Digit(combined % 64) else '=';
    Split(b0, b1, b2);
    FourPushes(before, c0, c1, c2, c3);
    result := before + [c0];
    result := result + [c1];
    result := result + [c2];
    result := result + [c3];
  }

  /** The loop over chunks of three. */
  method Base64Encode(input: seq<Byte>) returns (result: string)
    ensures result == Encode(input)
  {
    result := "";
    var i := 0;
    assert input[0..] == input;
    while i < |input|
      invariant i <= |input| && result + Encode(input[i..]) == Encode(input)
    {
      var end := if i + 3 <= |input| then i + 3 else |input|;
      ChunkFirst(result, input, i, end);
      result := PushGroup(result, input[i..end]);
      i := end;
    }
  }

  lemma EncodeChunk(chunk: seq<Byte>)
    requires 1 <= |chunk| <= 3
    ensures Encode(chunk) == GroupOf(chunk)
  {
    if |chunk| == 3 { assert chunk[..3] == chunk && GroupOf(chunk) + "" == GroupOf(chunk); }
  }

  lemma ChunkFirst(before: string, input: seq<Byte>, i: nat, end: nat)
    requires i < |input| && end == if i + 3 <= |input| then i + 3 else |input|
    ensures before + Encode(input[i..]) == before + GroupOf(input[i..end]) + Encode(input[end..])
  {
    var s, chunk := input[i..], input[i..end];
    if |s| < 3 {
      assert s == chunk && input[end..] == [];
    } else {
      assert s[..3] == chunk && s[3..] == input[end..];
    }
  }

  // ------------------------------------------------------------------ decoding

  /** Four characters. Pads are digits only the last group may have, and the bits they leave over must be zero. */
  function DecodeGroup(q: string, last: bool): Option<seq<Byte>>
    requires |q| == 4
  {
    if Value(q[0]).None? || Value(q[1]).None? then None
    else
      var v0, v1 := Value(q[0]).value, Value(q[1]).value;
      if last && q[2] == '=' && q[3] == '=' then (if v1 % 16 == 0 then Some([v0 * 4 + v1 / 16]) else None)
      else if Value(q[2]).None? then None
      else
        var v2 := Value(q[2]).value;
        if last && q[3] == '=' then (if v2 % 4 == 0 then Some([v0 * 4 + v1 / 16, v1 % 16 * 16 + v2 / 4]) else None)
        else if Value(q[3]).None? then None
        else Some([v0 * 4 + v1 / 16, v1 % 16 * 16 + v2 / 4, v2 % 4 * 64 + Value(q[3]).value])
  }

  function Decode(s: string): Option<seq<Byte>>
    decreases |s|
  {
    if s == [] then Some([])
    else if |s| < 4 then None
    else
      var first, rest := DecodeGroup(s[..4], |s| == 4), Decode(s[4..]);
      if first.None? || rest.None? then None else Some(first.value + rest.value)
  }

  lemma GroupValues(b0: nat, b1: nat, b2: nat, n: nat)
    requires b0 < 256 && b1 < 256 && b2 < 256 && 1 <= n <= 3
    ensures var g := Group(b0, b1, b2, n);
            && Value(g[0]) == Some(b0 / 4) && Value(g[1]) == Some(b0 % 4 * 16 + b1 / 16)
            && (if n > 1 then Value(g[2]) == Some(b1 % 16 * 4 + b2 / 64) && g[2] != '=' else g[2] == '=')
            && (if n > 2 then Value(g[3]) == Some(b2 % 64) && g[3] != '=' else g[3] == '=')
  {
    ValueOfDigit(b0 / 4);
    ValueOfDigit(b0 % 4 * 16 + b1 / 16);
    ValueOfDigit(b1 % 16 * 4 + b2 / 64);
    ValueOfDigit(b2 % 64);
  }

  lemma Sextet(b0: nat, b1: nat, b2: nat)
    requires b0 < 256 && b1 < 256 && b2 < 256
    ensures var v0, v1, v2, v3 := b0 / 4, b0 % 4 * 16 + b1 / 16, b1 % 16 * 4 + b2 / 64, b2 % 64;
            && v1 / 16 == b0 % 4 && v1 % 16 == b1 / 16 && v2 / 4 == b1 % 16 && v2 % 4 == b2 / 64
            && b0 == b0 / 4 * 4 + b0 % 4 && b1 == b1 / 16 * 16 + b1 % 16 && b2 == b2 / 64 * 64 + b2 % 64
  {
  }

  lemma OneDecodes(b0: nat)
    requires b0 < 256
    ensures DecodeGroup(Group(b0, 0, 0, 1), true) == Some([b0])
  {
    GroupValues(b0, 0, 0, 1);
    Sextet(b0, 0, 0);
  }

  lemma TwoDecode(b0: nat, b1: nat)
    requires b0 < 256 && b1 < 256
    ensures DecodeGroup(Group(b0, b1, 0, 2), true) == Some([b0, b1])
  {
    GroupValues(b0, b1, 0, 2);
    Sextet(b0, b1, 0);
  }

  lemma ThreeDecode(b0: nat, b1: nat, b2: nat, last: bool)
    requires b0 < 256 && b1 < 256 && b2 < 256
    ensures DecodeGroup(Group(b0, b1, b2, 3), last) == Some([b0, b1, b2])
  {
    GroupValues(b0, b1, b2, 3);
    Sextet(b0, b1, b2);
  }

  lemma GroupDecodes(bytes: seq<Byte>, last: bool)
    requires 1 <= |bytes| <= 3 && (|bytes| < 3 ==> last)
    ensures DecodeGroup(GroupOf(bytes), last) == Some(bytes)
  {
    if |bytes| == 1 {
      OneDecodes(bytes[0]);
      assert bytes == [bytes[0]];
    } else if |bytes| == 2 {
      TwoDecode(bytes[0], bytes[1]);
      assert bytes == [bytes[0], bytes[1]];
    } else {
      ThreeDecode(bytes[0], bytes[1], bytes[2], last);
      assert bytes == [bytes[0], bytes[1], bytes[2]];
    }
  }

  /** The decoder undoes the encoder. */
  lemma {:induction false} DecodeEncode(input: seq<Byte>)
    ensures Decode(Encode(input)) == Some(input)
    decreases |input|
  {
    if |input| >= 3 {
      GroupDecodes(input[..3], |input| == 3);
      DecodeEncode(input[3..]);
      EncodeNonEmpty(input[3..]);
      DecodeOneMore(GroupOf(input[..3]), Encode(input[3..]), input[..3], input[3..]);
      assert input == input[..3] + input[3..];
    } else if |input| > 0 {
      GroupDecodes(input, true);
      DecodeOneMore(GroupOf(input), "", input, []);
      assert input + [] == input && GroupOf(input) + "" == GroupOf(input);
    }
  }

  lemma DecodeOneMore(q: string, code: string, first: seq<Byte>, rest: seq<Byte>)
    requires |q| == 4 && DecodeGroup(q, code == "") == Some(first) && Decode(code) == Some(rest)
    ensures Decode(q + code) == Some(first + rest)
  {
    assert (q + code)[..4] == q && (q + code)[4..] == code;
  }

  lemma EncodeNonEmpty(input: seq<Byte>)
    ensures Encode(input) == [] <==> input == []
  {
  }

  lemma Bytes(v0: nat, v1: nat, v2: nat, v3: nat)
    requires v0 < 64 && v1 < 64 && v2 < 64 && v3 < 64
    ensures var b0, b1, b2 := v0 * 4 + v1 / 16, v1 % 16 * 16 + v2 / 4, v2 % 4 * 64 + v3;
            && b0 < 256 && b1 < 256 && b2 < 256
            && b0 / 4 == v0 && b0 % 4 * 16 + b1 / 16 == v1 && b1 % 16 * 4 + b2 / 64 == v2 && b2 % 64 == v3
  {
  }

  lemma OneEncodes(v0: nat, v1: nat)
    requires v0 < 64 && v1 < 64 && v1 % 16 == 0
    ensures GroupOf([v0 * 4 + v1 / 16]) == [Digit(v0), Digit(v1), '=', '=']
  {
    Bytes(v0, v1, 0, 0);
  }

  lemma TwoEncode(v0: nat, v1: nat, v2: nat)
    requires v0 < 64 && v1 < 64 && v2 < 64 && v2 % 4 == 0
    ensures GroupOf([v0 * 4 + v1 / 16, v1 % 16 * 16 + v2 / 4]) == [Digit(v0), Digit(v1), Digit(v2), '=']
  {
    Bytes(v0, v1, v2, 0);
  }

  lemma ThreeEncode(v0: nat, v1: nat, v2: nat, v3: nat)
    requires v0 < 64 && v1 < 64 && v2 < 64 && v3 < 64
    ensures GroupOf([v0 * 4 + v1 / 16, v1 % 16 * 16 + v2 / 4, v2 % 4 * 64 + v3]) ==
              [Digit(v0), Digit(v1), Digit(v2), Digit(v3)]
  {
    Bytes(v0, v1, v2, v3);
  }

  lemma FourOf(q: string)
    requires |q| == 4
    ensures q == [q[0], q[1], q[2], q[3]]
  {
  }

  lemma GroupEncodes(q: string, last: bool)
    requires |q| == 4 && DecodeGroup(q, last).Some?
    ensures var bytes := DecodeGroup(q, last).value;
            1 <= |bytes| <= 3 && (|bytes| < 3 ==> last) && GroupOf(bytes) == q
  {
    var bytes := DecodeGroup(q, last).value;
    if last && q[2] == '=' && q[3] == '=' {
      OnePadded(q, Value(q[0]).value, Value(q[1]).value, bytes);
    } else if last && q[3] == '=' {
      TwoPadded(q, Value(q[0]).value, Value(q[1]).value, Value(q[2]).value, bytes);
    } else {
      Unpadded(q, Value(q[0]).value, Value(q[1]).value, Value(q[2]).value, Value(q[3]).value, bytes);
    }
  }

  lemma OnePadded(q: string, v0: nat, v1: nat, bytes: seq<Byte>)
    requires |q| == 4 && Value(q[0]) == Some(v0) && Value(q[1]) == Some(v1) && q[2] == '=' && q[3] == '='
    requires v0 < 64 && v1 < 64 && v1 % 16 == 0 && bytes == [v0 * 4 + v1 / 16]
    ensures GroupOf(bytes) == q
  {
    DigitOfValue(q[0]);
    DigitOfValue(q[1]);
    OneEncodes(v0, v1);
    FourOf(q);
  }

  lemma TwoPadded(q: string, v0: nat, v1: nat, v2: nat, bytes: seq<Byte>)
    requires |q| == 4 && Value(q[0]) == Some(v0) && Value(q[1]) == Some(v1) && Value(q[2]) == Some(v2) && q[3] == '='
    requires v0 < 64 && v1 < 64 && v2 < 64 && v2 % 4 == 0
    requires bytes == [v0 * 4 + v1 / 16, v1 % 16 * 16 + v2 / 4]
    ensures GroupOf(bytes) == q
  {
    DigitOfValue(q[0]);
    DigitOfValue(q[1]);
    DigitOfValue(q[2]);
    TwoEncode(v0, v1, v2);
    FourOf(q);
  }

  lemma Unpadded(q: string, v0: nat, v1: nat, v2: nat, v3: nat, bytes: seq<Byte>)
    requires |q| == 4 && Value(q[0]) == Some(v0) && Value(q[1]) == Some(v1) && Value(q[2]) == Some(v2)
    requires Value(q[3]) == Some(v3) && v0 < 64 && v1 < 64 && v2 < 64 && v3 < 64
    requires bytes == [v0 * 4 + v1 / 16, v1 % 16 * 16 + v2 / 4, v2 % 4 * 64 + v3]
    ensures GroupOf(bytes) == q
  {
    DigitOfValue(q[0]);
    DigitOfValue(q[1]);
    DigitOfValue(q[2]);
    DigitOfValue(q[3]);
    ThreeEncode(v0, v1, v2, v3);
    FourOf(q);
  }

  /** What the decoder accepts is what the encoder writes: the encoder undoes the decoder too. */
  lemma {:induction false} EncodeDecode(s: string)
    requires Decode(s).Some?
    ensures Encode(Decode(s).value) == s
    decreases |s|
  {
    if s != [] {
      GroupEncodes(s[..4], |s| == 4);
      EncodeDecode(s[4..]);
      var first, rest := DecodeGroup(s[..4], |s| == 4).value, Decode(s[4..]).value;
      assert s == s[..4] + s[4..];
      if |s| == 4 {
        assert rest == [] && first + rest == first;
        EncodeChunk(first);
      } else {
        assert (first + rest)[..3] == first && (first + rest)[3..] == rest;
      }
    }
  }

  function Pads(n: nat): nat { if n % 3 == 0 then 0 else 3 - n % 3 }

  lemma ThreeMore(n: nat)
    requires n >= 3
    ensures Pads(n) == Pads(n - 3) && (n + 2) / 3 == (n - 1) / 3 + 1
  {
  }

  /** Digits only, but for `pads` pads at the end. */
  ghost predicate PaddedDigits(code: string, pads: nat)
  {
    forall i :: 0 <= i < |code| ==> if i < |code| - pads then Value(code[i]).Some? else code[i] == '='
  }

  /** Four digits for every three bytes begun; only digits, except one or two pads at the very end when the last
      three bytes are incomplete. */
  lemma {:induction false} EncodeShape(input: seq<Byte>)
    ensures |Encode(input)| == (|input| + 2) / 3 * 4 && PaddedDigits(Encode(input), Pads(|input|))
    decreases |input|
  {
    if |input| >= 3 {
      EncodeShape(input[3..]);
      ThreeMore(|input|);
      GroupShape(input[..3]);
      PadsAtEnd(GroupOf(input[..3]), Encode(input[3..]), Pads(|input| - 3));
    } else if |input| > 0 {
      GroupShape(input);
    }
  }

  lemma GroupShape(bytes: seq<Byte>)
    requires 1 <= |bytes| <= 3
    ensures PaddedDigits(GroupOf(bytes), 3 - |bytes|)
  {
    GroupValues(bytes[0], if |bytes| > 1 then bytes[1] else 0, if |bytes| > 2 then bytes[2] else 0, |bytes|);
  }

  lemma PadsAtEnd(g: string, rest: string, pads: nat)
    requires PaddedDigits(g, 0) && PaddedDigits(rest, pads) && pads <= |rest|
    ensures PaddedDigits(g + rest, pads)
  {
  }
}
