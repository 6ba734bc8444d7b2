/** Padded base64 with the standard alphabet, section 4 of RFC 4648. */
module Base64 {
  import opened Wrappers

  type Byte = x: int | 0 <= x < 0x100

  function Symbol(v: int): char
    requires 0 <= v < 64
  {
    if v < 26 then ('A' as int + v) as char
    else if v < 52 then ('a' as int + v - 26) as char
    else if v < 62 then ('0' as int + v - 52) as char
    else if v == 62 then '+' else '/'
  }

  function Sextet(c: char): (r: Option<int>)
    ensures r.Some? ==> 0 <= r.value < 64 && Symbol(r.value) == c
  {
    if 'A' <= c <= 'Z' then Some(c as int - 'A' as int)
    else if 'a' <= c <= 'z' then Some(c as int - 'a' as int + 26)
    else if '0' <= c <= '9' then Some(c as int - '0' as int + 52)
    else if c == '+' then Some(62)
    else if c == '/' then Some(63)
    else None
  }

  lemma SextetOfSymbol(v: int)
    requires 0 <= v < 64
    ensures Sextet(Symbol(v)) == Some(v) && Symbol(v) != '='
  {}

  function Group1(a: Byte): string { [Symbol(a / 4), Symbol(a % 4 * 16), '=', '='] }

  function Group2(a: Byte, b: Byte): string {
    [Symbol(a / 4), Symbol(a % 4 * 16 + b / 16), Symbol(b % 16 * 4), '=']
  }

  function Group3(a: Byte, b: Byte, c: Byte): string {
    [Symbol(a / 4), Symbol(a % 4 * 16 + b / 16), Symbol(b % 16 * 4 + c / 64), Symbol(c % 64)]
  }

  function Encode(bs: seq<Byte>): (s: string)
    ensures |s| == (|bs| + 2) / 3 * 4
  {
    if |bs| == 0 then ""
    else if |bs| == 1 then Group1(bs[0])
    else if |bs| == 2 then Group2(bs[0], bs[1])
    else Group3(bs[0], bs[1], bs[2]) + Encode(bs[3..])
  }

  /** One group of four symbols: one to three bytes, the unused bits of a padded group being zero. */
  function DecodeGroup(a: char, b: char, c: char, d: char): Option<seq<Byte>> {
    var x, y, z, w := Sextet(a), Sextet(b), Sextet(c), Sextet(d);
    if x.None? || y.None? then None
    else
      var b0 := x.value * 4 + y.value / 16;
      if c == '=' then
        if d == '=' && y.value % 16 == 0 then Some([b0]) else None
      else if z.None? then None
      else
        var b1 := y.value % 16 * 16 + z.value / 4;
        if d == '=' then
          if z.value % 4 == 0 then Some([b0, b1]) else None
        else if w.None? then None
        else Some([b0, b1, z.value % 4 * 64 + w.value])
  }

  function Decode(s: string): Option<seq<Byte>> {
    if s == "" then Some([])
    else if |s| < 4 then None
    else
      var head := DecodeGroup(s[0], s[1], s[2], s[3]);
      var tail := Decode(s[4..]);
      if head.None? || tail.None? || (|head.value| < 3 && s[4..] != "") then None
      else Some(head.value + tail.value)
  }

  /** The sextets of three bytes, and the bytes put together again. */
  lemma Regroup(a: Byte, b: Byte, c: Byte)
    ensures 0 <= a / 4 < 64 && 0 <= a % 4 * 16 + b / 16 < 64 && 0 <= b % 16 * 4 + c / 64 < 64
    ensures a / 4 * 4 + (a % 4 * 16 + b / 16) / 16 == a
    ensures (a % 4 * 16 + b / 16) % 16 * 16 + (b % 16 * 4 + c / 64) / 4 == b
    ensures (b % 16 * 4 + c / 64) % 4 * 64 + c % 64 == c
  {}

  lemma DecodeGroupOfSymbols(x: int, y: int, z: int, w: int)
    requires 0 <= x < 64 && 0 <= y < 64 && 0 <= z < 64 && 0 <= w < 64
    ensures DecodeGroup(Symbol(x), Symbol(y), Symbol(z), Symbol(w))
         == Some([x * 4 + y / 16, y % 16 * 16 + z / 4, z % 4 * 64 + w])
    ensures z % 4 == 0 ==>
      DecodeGroup(Symbol(x), Symbol(y), Symbol(z), '=') == Some([x * 4 + y / 16, y % 16 * 16 + z / 4])
    ensures y % 16 == 0 ==> DecodeGroup(Symbol(x), Symbol(y), '=', '=') == Some([x * 4 + y / 16])
  {
    SextetOfSymbol(x);
    SextetOfSymbol(y);
    SextetOfSymbol(z);
    SextetOfSymbol(w);
  }

  predicate Decodes(s: string, bs: seq<Byte>) {
    |s| == 4 && DecodeGroup(s[0], s[1], s[2], s[3]) == Some(bs)
  }

  lemma DecodeGroup1(a: Byte)
    ensures Decodes(Group1(a), [a])
  {}

  lemma DecodeGroup2(a: Byte, b: Byte)
    ensures Decodes(Group2(a, b), [a, b])
  {
    Regroup(a, b, 0);
    DecodeGroupOfSymbols(a / 4, a % 4 * 16 + b / 16, b % 16 * 4, 0);
  }

  lemma DecodeSymbols3(x: int, y: int, z: int, w: int, a: Byte, b: Byte, c: Byte)
    requires 0 <= x < 64 && 0 <= y < 64 && 0 <= z < 64 && 0 <= w < 64
    requires x * 4 + y / 16 == a && y % 16 * 16 + z / 4 == b && z % 4 * 64 + w == c
    ensures Decodes([Symbol(x), Symbol(y), Symbol(z), Symbol(w)], [a, b, c])
  {
    DecodeGroupOfSymbols(x, y, z, w);
  }

  lemma DecodeGroup3(a: Byte, b: Byte, c: Byte)
    ensures Decodes(Group3(a, b, c), [a, b, c])
  {
    Regroup(a, b, c);
    DecodeSymbols3(a / 4, a % 4 * 16 + b / 16, b % 16 * 4 + c / 64, c % 64, a, b, c);
  }

  lemma DecodeStep(head: string, hs: seq<Byte>, tail: string, ts: seq<Byte>)
    requires Decodes(head, hs) && Decode(tail) == Some(ts) && (|hs| == 3 || tail == "")
    ensures Decode(head + tail) == Some(hs + ts)
  {}

  lemma DecodeOne(head: string, hs: seq<Byte>)
    requires Decodes(head, hs)
    ensures Decode(head) == Some(hs)
  {
    DecodeStep(head, hs, "", []);
    assert head + "" == head && hs + [] == hs;
  }

  lemma DecodeOfShort(bs: seq<Byte>)
    requires 0 < |bs| <= 2
    ensures Decode(Encode(bs)) == Some(bs)
  {
    if |bs| == 1 {
      DecodeGroup1(bs[0]);
      DecodeOne(Group1(bs[0]), [bs[0]]);
      assert bs == [bs[0]];
    } else {
      DecodeGroup2(bs[0], bs[1]);
      DecodeOne(Group2(bs[0], bs[1]), [bs[0], bs[1]]);
      assert bs == [bs[0], bs[1]];
    }
  }

  lemma FirstThree<T>(s: seq<T>)
    requires |s| > 2
    ensures s == [s[0], s[1], s[2]] + s[3..]
  {}

  lemma {:induction false} DecodeOfEncode(bs: seq<Byte>)
    ensures Decode(Encode(bs)) == Some(bs)
  {
    if 0 < |bs| <= 2 {
      DecodeOfShort(bs);
    } else if |bs| > 2 {
      var head, rest := [bs[0], bs[1], bs[2]], bs[3..];
      DecodeGroup3(bs[0], bs[1], bs[2]);
      DecodeOfEncode(rest);
      DecodeStep(Group3(bs[0], bs[1], bs[2]), head, Encode(rest), rest);
      FirstThree(bs);
    }
  }

  /** Test vectors of section 10, and both symbols at the end of the alphabet. */
  lemma Vectors()
    ensures Encode([102]) == "Zg==" && Encode([102, 111]) == "Zm8=" && Encode([102, 111, 111]) == "Zm9v"
    ensures Encode([251, 240]) == "+/A="
  {
    var foo: seq<Byte> := [102, 111, 111];
    assert foo[3..] == [];
  }
}
