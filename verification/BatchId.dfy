/** The MySQL batch id: the creation timestamp, printed in decimal and base64 encoded (src/db/mysql/batch.rs). */
module BatchId {
  import opened Wrappers
  import Decimal
  import Base64

  const I64_MIN: int := -0x8000_0000_0000_0000
  const I64_MAX: int := 0x7fff_ffff_ffff_ffff

  type Byte = Base64.Byte

  predicate Continuation(bs: seq<Byte>, i: nat) { i < |bs| && 0x80 <= bs[i] < 0xc0 }

  /** Well-formed UTF-8, section 4 of RFC 3629. */
  predicate ValidUtf8(bs: seq<Byte>) {
    |bs| == 0 ||
    (if bs[0] < 0x80 then ValidUtf8(bs[1..])
     else if 0xc2 <= bs[0] < 0xe0 then Continuation(bs, 1) && ValidUtf8(bs[2..])
     else if 0xe0 <= bs[0] < 0xf0 then
       Continuation(bs, 1) && Continuation(bs, 2)
       && (bs[0] == 0xe0 ==> bs[1] >= 0xa0) && (bs[0] == 0xed ==> bs[1] < 0xa0)
       && ValidUtf8(bs[3..])
     else if 0xf0 <= bs[0] < 0xf5 then
       Continuation(bs, 1) && Continuation(bs, 2) && Continuation(bs, 3)
       && (bs[0] == 0xf0 ==> bs[1] >= 0x90) && (bs[0] == 0xf4 ==> bs[1] < 0x90)
       && ValidUtf8(bs[4..])
     else false)
  }

  predicate Ascii(bs: seq<Byte>) { forall i | 0 <= i < |bs| :: bs[i] < 0x80 }

  function AsciiString(bs: seq<Byte>): (s: string)
    requires Ascii(bs)
    ensures |s| == |bs|
  {
    seq(|bs|, i requires 0 <= i < |bs| => bs[i] as char)
  }

  function AsciiBytes(s: string): (bs: seq<Byte>)
    requires forall i | 0 <= i < |s| :: s[i] as int < 0x80
    ensures |bs| == |s|
  {
    seq(|s|, i requires 0 <= i < |s| => s[i] as int)
  }

  function ParseI64(s: string): Result<int> {
    var r := Decimal.Parse(s, I64_MIN, I64_MAX);
    if r.Some? then Ok(r.value) else Err(Internal)
  }

  lemma PrintIsAscii(i: int)
    ensures forall k | 0 <= k < |Decimal.Print(i)| :: Decimal.Print(i)[k] as int < 0x80
  {}

  function EncodeId(id: I64): string {
    PrintIsAscii(id);
    Base64.Encode(AsciiBytes(Decimal.Print(id)))
  }

  /**
   * An id that is not base64 is taken as it stands, and so is one that decodes to bytes that are
   * not UTF-8; bytes outside ASCII that are UTF-8 cannot be a number.
   */
  function DecodeId(id: string): Result<int> {
    var bytes := Base64.Decode(id);
    if bytes.None? then ParseI64(id)
    else if Ascii(bytes.value) then ParseI64(AsciiString(bytes.value))
    else if ValidUtf8(bytes.value) then Err(Internal)
    else ParseI64(id)
  }

  lemma DecodeEncode(id: I64)
    ensures DecodeId(EncodeId(id)) == Ok(id)
  {
    PrintIsAscii(id);
    var s := Decimal.Print(id);
    Base64.DecodeOfEncode(AsciiBytes(s));
    assert AsciiString(AsciiBytes(s)) == s;
    Decimal.ParsePrint(id, I64_MIN, I64_MAX);
  }
}
