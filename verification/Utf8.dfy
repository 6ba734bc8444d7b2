/** Strings as bytes, by section 3 of RFC 3629: what the limits on payloads count. */
module Utf8 {
  import opened Wrappers

  /** The code of a character that can be written: no surrogate. */
  predicate Scalar(code: int) { 0 <= code < 0xd800 || 0xe000 <= code < 0x11_0000 }

  function EncodeChar(c: char): (bytes: seq<int>)
    ensures |bytes|
         == if c as int < 0x80 then 1 else if c as int < 0x800 then 2 else if c as int < 0x1_0000 then 3 else 4
    ensures forall i | 0 <= i < |bytes| :: 0 <= bytes[i] < 0xf8 && (i > 0 ==> 0x80 <= bytes[i] < 0xc0)
  {
    var code := c as int;
    if code < 0x80 then [code]
    else if code < 0x800 then [0xc0 + code / 64, 0x80 + code % 64]
    else if code < 0x1_0000 then [0xe0 + code / 4096, 0x80 + code / 64 % 64, 0x80 + code % 64]
    else [0xf0 + code / 262_144, 0x80 + code / 4096 % 64, 0x80 + code / 64 % 64, 0x80 + code % 64]
  }

  function Encode(s: string): seq<int> { if s == "" then [] else EncodeChar(s[0]) + Encode(s[1..]) }

  /** How many bytes follow the first one, and what it contributes to the code. */
  function Lead(byte: int): (nat, int) {
    if byte < 0x80 then (0, byte)
    else if byte < 0xe0 then (1, byte - 0xc0)
    else if byte < 0xf0 then (2, byte - 0xe0)
    else (3, byte - 0xf0)
  }

  function Follow(code: int, bytes: seq<int>, n: nat): int
    requires n <= |bytes|
    decreases n
  {
    if n == 0 then code else Follow(code * 64 + (bytes[0] - 0x80), bytes[1..], n - 1)
  }

  function Decode(bytes: seq<int>): Option<string> {
    if bytes == [] then Some("")
    else
      var (n, code) := Lead(bytes[0]);
      if |bytes| <= n then None
      else
        var scalar, rest := Follow(code, bytes[1..], n), Decode(bytes[1 + n..]);
        if !Scalar(scalar) || rest.None? then None else Some([scalar as char] + rest.value)
  }

  lemma FollowOne(code: int, a: int, rest: seq<int>)
    ensures Follow(code, [a] + rest, 1) == code * 64 + (a - 0x80)
  {
    assert ([a] + rest)[1..] == rest;
  }

  lemma FollowTwo(code: int, a: int, b: int, rest: seq<int>)
    ensures Follow(code, [a, b] + rest, 2) == (code * 64 + (a - 0x80)) * 64 + (b - 0x80)
  {
    assert ([a, b] + rest)[1..] == [b] + rest;
    FollowOne(code * 64 + (a - 0x80), b, rest);
  }

  lemma FollowThree(code: int, a: int, b: int, c: int, rest: seq<int>)
    ensures Follow(code, [a, b, c] + rest, 3) == ((code * 64 + (a - 0x80)) * 64 + (b - 0x80)) * 64 + (c - 0x80)
  {
    assert ([a, b, c] + rest)[1..] == [b, c] + rest;
    FollowTwo(code * 64 + (a - 0x80), b, c, rest);
  }

  lemma TwoDigits(code: nat)
    ensures code == code / 64 * 64 + code % 64
  {}

  lemma ThreeDigits(code: nat)
    ensures code == (code / 4096 * 64 + code / 64 % 64) * 64 + code % 64
  {
    TwoDigits(code);
    TwoDigits(code / 64);
    assert code / 64 / 64 == code / 4096;
  }

  lemma FourDigits(code: nat)
    ensures code == ((code / 262_144 * 64 + code / 4096 % 64) * 64 + code / 64 % 64) * 64 + code % 64
  {
    TwoDigits(code);
    ThreeDigits(code / 64);
    assert code / 64 / 4096 == code / 262_144 && code / 64 / 64 == code / 4096;
  }

  /** The bytes after the first one complete the code. */
  lemma CodeIsRead(c: char, rest: seq<int>)
    ensures var chars := EncodeChar(c);
      var (n, code) := Lead(chars[0]);
      n == |chars| - 1 && Follow(code, chars[1..] + rest, n) == c as int
  {
    var code := c as int;
    var chars := EncodeChar(c);
    if code < 0x80 {
    } else if code < 0x800 {
      TwoDigits(code);
      assert chars[1..] == [0x80 + code % 64];
      FollowOne(code / 64, 0x80 + code % 64, rest);
    } else if code < 0x1_0000 {
      ThreeDigits(code);
      assert chars[1..] == [0x80 + code / 64 % 64, 0x80 + code % 64];
      FollowTwo(code / 4096, 0x80 + code / 64 % 64, 0x80 + code % 64, rest);
    } else {
      FourDigits(code);
      assert chars[1..] == [0x80 + code / 4096 % 64, 0x80 + code / 64 % 64, 0x80 + code % 64];
      FollowThree(code / 262_144, 0x80 + code / 4096 % 64, 0x80 + code / 64 % 64, 0x80 + code % 64, rest);
    }
  }

  /** The first character is read back, and what comes after it is left. */
  lemma CharIsRead(c: char, rest: seq<int>)
    ensures var bytes := EncodeChar(c) + rest;
      var (n, code) := Lead(bytes[0]);
      && n < |bytes| && bytes[1 + n..] == rest
      && Follow(code, bytes[1..], n) == c as int
  {
    CodeIsRead(c, rest);
    assert (EncodeChar(c) + rest)[1..] == EncodeChar(c)[1..] + rest;
  }

  /** Every string is read back from its bytes. */
  lemma {:induction false} DecodeEncode(s: string)
    ensures Decode(Encode(s)) == Some(s)
  {
    if s != "" {
      DecodeEncode(s[1..]);
      CharIsRead(s[0], Encode(s[1..]));
      assert [s[0]] + s[1..] == s;
    }
  }
}
