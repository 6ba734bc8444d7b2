/**
 * The text a MySQL batch row holds (src/db/mysql/batch.rs): one JSON object a line, as serde_json
 * prints a `PostCollectionBso`. Strings are escaped as section 7 of RFC 8259 asks.
 */
module BatchString {
  import opened Wrappers
  import opened Bso
  import Decimal

  const HEX := "0123456789abcdef"

  // ----- printing -----

  function EscapeChar(c: char): (s: string)
    ensures |s| > 0 && s[0] != '"'
  {
    if c == '"' then "\\\""
    else if c == '\\' then "\\\\"
    else if c as int == 0x08 then "\\b"
    else if c as int == 0x09 then "\\t"
    else if c as int == 0x0a then "\\n"
    else if c as int == 0x0c then "\\f"
    else if c as int == 0x0d then "\\r"
    else if c as int < 0x20 then "\\u00" + [HEX[c as int / 16], HEX[c as int % 16]]
    else [c]
  }

  function Escape(s: string): string {
    if s == "" then "" else EscapeChar(s[0]) + Escape(s[1..])
  }

  function Quote(s: string): string { "\"" + Escape(s) + "\"" }

  function PrintOptInt(o: Option<int>): string { if o.None? then "null" else Decimal.Print(o.value) }

  function PrintOptString(o: Option<string>): string { if o.None? then "null" else Quote(o.value) }

  function PrintTtl(item: Item): string { ",\"ttl\":" + (PrintOptInt(item.ttl) + "}") }

  function PrintPayload(item: Item): string {
    ",\"payload\":" + (PrintOptString(item.payload) + PrintTtl(item))
  }

  function PrintSortindex(item: Item): string {
    ",\"sortindex\":" + (PrintOptInt(item.sortindex) + PrintPayload(item))
  }

  function PrintItem(item: Item): string { "{\"id\":" + (Quote(item.id) + PrintSortindex(item)) }

  function Join(parts: seq<string>, sep: string): string {
    if |parts| == 0 then ""
    else if |parts| == 1 then parts[0]
    else parts[0] + sep + Join(parts[1..], sep)
  }

  function PrintItems(items: seq<Item>): (lines: seq<string>)
    ensures |lines| == |items|
    ensures forall i | 0 <= i < |items| :: lines[i] == PrintItem(items[i])
  {
    seq(|items|, i requires 0 <= i < |items| => PrintItem(items[i]))
  }

  /** `bsos_to_batch_string`. */
  function BsosToBatchString(items: seq<Item>): string {
    Join(PrintItems(items), "\n") + (if |items| == 0 then "" else "\n")
  }

  // ----- parsing -----

  datatype Parsed<+T> = Fail | Done(value: T, rest: string)

  function Literal(lit: string, s: string): Parsed<()> {
    if lit <= s then Done((), s[|lit|..]) else Fail
  }

  function HexValue(c: char): Option<int> {
    if '0' <= c <= '9' then Some(c as int - '0' as int)
    else if 'a' <= c <= 'f' then Some(c as int - 'a' as int + 10)
    else if 'A' <= c <= 'F' then Some(c as int - 'A' as int + 10)
    else None
  }

  function ParseHex(s: string): Parsed<char> {
    if |s| < 4 then Fail
    else
      var a, b, c, d := HexValue(s[0]), HexValue(s[1]), HexValue(s[2]), HexValue(s[3]);
      if a.None? || b.None? || c.None? || d.None? then Fail
      else
        var v := a.value * 0x1000 + b.value * 0x100 + c.value * 0x10 + d.value;
        if 0 <= v < 0xd800 || 0xe000 <= v < 0x1_0000 then Done(v as char, s[4..]) else Fail
  }

  /** One character of a string, escaped or not. */
  function ParseChar(s: string): (p: Parsed<char>)
    ensures p.Done? ==> |p.rest| < |s|
  {
    if s == "" || s[0] as int < 0x20 || s[0] == '"' then Fail
    else if s[0] != '\\' then Done(s[0], s[1..])
    else if |s| == 1 then Fail
    else if s[1] in "\"\\/" then Done(s[1], s[2..])
    else if s[1] == 'b' then Done(0x08 as char, s[2..])
    else if s[1] == 't' then Done(0x09 as char, s[2..])
    else if s[1] == 'n' then Done(0x0a as char, s[2..])
    else if s[1] == 'f' then Done(0x0c as char, s[2..])
    else if s[1] == 'r' then Done(0x0d as char, s[2..])
    else if s[1] == 'u' then ParseHex(s[2..])
    else Fail
  }

  /** The characters of a string and its closing quote. */
  function ParseChars(s: string): Parsed<string>
    decreases |s|
  {
    if s == "" then Fail
    else if s[0] == '"' then Done("", s[1..])
    else
      var head := ParseChar(s);
      if head.Fail? then Fail
      else
        var tail := ParseChars(head.rest);
        if tail.Fail? then Fail else Done([head.value] + tail.value, tail.rest)
  }

  function ParseString(s: string): Parsed<string> {
    if s != "" && s[0] == '"' then ParseChars(s[1..]) else Fail
  }

  function ParseOptString(s: string): Parsed<Option<string>> {
    if "null" <= s then Done(None, s[4..])
    else
      var p := ParseString(s);
      if p.Fail? then Fail else Done(Some(p.value), p.rest)
  }

  predicate NumberChar(c: char) { c == '-' || Decimal.IsDigit(c) }

  function Span(s: string): (n: nat)
    ensures n <= |s|
  {
    if s == "" || !NumberChar(s[0]) then 0 else 1 + Span(s[1..])
  }

  /** A JSON integer has one spelling only: no plus sign, no leading zero, no minus zero. */
  function ParseOptInt(s: string, lo: int, hi: int): (p: Parsed<Option<int>>)
    ensures p.Done? && p.value.Some? ==> lo <= p.value.value <= hi
  {
    if "null" <= s then Done(None, s[4..])
    else
      var token := s[..Span(s)];
      var v := Decimal.Parse(token, lo, hi);
      if v.None? || Decimal.Print(v.value) != token then Fail else Done(v, s[|token|..])
  }

  function ParseTtl(s: string): Option<Option<U32>> {
    var p := Literal(",\"ttl\":", s);
    if p.Fail? then None else
    var ttl := ParseOptInt(p.rest, 0, 0xffff_ffff);
    if ttl.Fail? || ttl.rest != "}" then None else Some(NarrowU32(ttl.value))
  }

  function ParsePayload(s: string): Option<(Option<string>, Option<U32>)> {
    var p := Literal(",\"payload\":", s);
    if p.Fail? then None else
    var payload := ParseOptString(p.rest);
    if payload.Fail? then None else
    var ttl := ParseTtl(payload.rest);
    if ttl.None? then None else Some((payload.value, ttl.value))
  }

  function ParseSortindex(s: string): Option<(Option<I32>, Option<string>, Option<U32>)> {
    var p := Literal(",\"sortindex\":", s);
    if p.Fail? then None else
    var sortindex := ParseOptInt(p.rest, -0x8000_0000, 0x7fff_ffff);
    if sortindex.Fail? then None else
    var rest := ParsePayload(sortindex.rest);
    if rest.None? then None else Some((Narrow32(sortindex.value), rest.value.0, rest.value.1))
  }

  function ParseItem(s: string): Option<Item> {
    var p := Literal("{\"id\":", s);
    if p.Fail? then None else
    var id := ParseString(p.rest);
    if id.Fail? then None else
    var rest := ParseSortindex(id.rest);
    if rest.None? then None else Some(Item(id.value, rest.value.0, rest.value.1, rest.value.2))
  }

  function Narrow32(o: Option<int>): (r: Option<I32>)
    requires o.Some? ==> -0x8000_0000 <= o.value < 0x8000_0000
  {
    if o.None? then None else Some(o.value)
  }

  function NarrowU32(o: Option<int>): (r: Option<U32>)
    requires o.Some? ==> 0 <= o.value < 0x1_0000_0000
  {
    if o.None? then None else Some(o.value)
  }

  function StripReturn(s: string): string {
    if s != "" && s[|s| - 1] == '\r' then s[..|s| - 1] else s
  }

  /** The lines of `line + s`, where `line` has no newline. */
  function LinesFrom(line: string, s: string): seq<string>
    decreases |s|
  {
    if s == "" then (if line == "" then [] else [StripReturn(line)])
    else if s[0] == '\n' then [StripReturn(line)] + LinesFrom("", s[1..])
    else LinesFrom(line + [s[0]], s[1..])
  }

  /** `str::lines`: a final newline does not begin another line, a line's carriage return is dropped. */
  function Lines(s: string): seq<string> { LinesFrom("", s) }

  function ParseLines(lines: seq<string>): Result<seq<Item>> {
    if |lines| == 0 then Ok([])
    else
      var head := ParseItem(lines[0]);
      if head.None? then Err(Internal)
      else
        var tail := ParseLines(lines[1..]);
        if tail.Err? then tail else Ok([head.value] + tail.value)
  }

  /** `batch_string_to_bsos`. */
  function BatchStringToBsos(s: string): Result<seq<Item>> { ParseLines(Lines(s)) }

  // ----- one item survives printing and parsing -----

  /** No control character: neither a newline nor a carriage return, in particular. */
  predicate Clean(s: string) { forall i | 0 <= i < |s| :: s[i] as int >= 0x20 }

  lemma CleanConcat(a: string, b: string)
    requires Clean(a) && Clean(b)
    ensures Clean(a + b)
  {}

  lemma ParseEscapedChar(c: char, t: string)
    ensures ParseChar(EscapeChar(c) + t) == Done(c, t)
    ensures Clean(EscapeChar(c))
  {
    var s := EscapeChar(c) + t;
    if c == '"' || c == '\\' || c as int in {0x08, 0x09, 0x0a, 0x0c, 0x0d} {
      assert s[2..] == t;
    } else if c as int < 0x20 {
      ParseControlChar(c, t);
    } else {
      assert s[1..] == t;
    }
  }

  lemma ParseControlChar(c: char, t: string)
    requires c as int < 0x20 && c as int !in {0x08, 0x09, 0x0a, 0x0c, 0x0d}
    ensures ParseChar(EscapeChar(c) + t) == Done(c, t)
    ensures Clean(EscapeChar(c))
  {
    var s, v := EscapeChar(c) + t, c as int;
    assert s[2..][4..] == t;
    assert s[2..][..4] == "00" + [HEX[v / 16], HEX[v % 16]];
    HexDigit(v / 16);
    HexDigit(v % 16);
  }

  lemma HexDigit(d: int)
    requires 0 <= d < 16
    ensures HexValue(HEX[d]) == Some(d)
  {}

  lemma ParseCharsStep(s: string, c: char, t: string, v: string, rest: string)
    requires s != "" && s[0] != '"' && ParseChar(s) == Done(c, t) && ParseChars(t) == Done(v, rest)
    ensures ParseChars(s) == Done([c] + v, rest)
  {}

  lemma ParseEscapedCons(c: char, t: string, v: string, rest: string)
    requires ParseChars(t) == Done(v, rest)
    ensures ParseChars(EscapeChar(c) + t) == Done([c] + v, rest)
  {
    ParseEscapedChar(c, t);
    var all := EscapeChar(c) + t;
    assert all[0] == EscapeChar(c)[0];
    ParseCharsStep(all, c, t, v, rest);
  }

  lemma EscapeCons(s: string, t: string)
    requires s != ""
    ensures Escape(s) + t == EscapeChar(s[0]) + (Escape(s[1..]) + t)
  {
    ThreeParts(EscapeChar(s[0]), Escape(s[1..]), t);
  }

  lemma ThreeParts(a: string, b: string, c: string)
    ensures a + b + c == a + (b + c)
  {}

  lemma ParseChars0(rest: string)
    ensures ParseChars("\"" + rest) == Done("", rest)
  {}

  lemma {:induction false} ParseEscaped(s: string, rest: string)
    ensures ParseChars(Escape(s) + ("\"" + rest)) == Done(s, rest)
  {
    if s == "" {
      ParseChars0(rest);
      assert Escape(s) + ("\"" + rest) == "\"" + rest;
    } else {
      ParseEscaped(s[1..], rest);
      EscapeCons(s, "\"" + rest);
      ParseEscapedCons(s[0], Escape(s[1..]) + ("\"" + rest), s[1..], rest);
      assert [s[0]] + s[1..] == s;
    }
  }

  lemma {:induction false} EscapeIsClean(s: string)
    ensures Clean(Escape(s))
  {
    if s != "" {
      ParseEscapedChar(s[0], "");
      EscapeIsClean(s[1..]);
      CleanConcat(EscapeChar(s[0]), Escape(s[1..]));
    }
  }

  lemma QuoteConcat(body: string, rest: string)
    ensures ("\"" + body + "\"" + rest)[1..] == body + ("\"" + rest)
    ensures ("\"" + body + "\"" + rest)[0] == '"'
  {}

  lemma ParseQuoted(s: string, rest: string)
    ensures ParseString(Quote(s) + rest) == Done(s, rest)
    ensures Clean(Quote(s))
  {
    EscapeIsClean(s);
    ParseEscaped(s, rest);
    QuoteConcat(Escape(s), rest);
  }

  lemma ParsePrintedOptString(o: Option<string>, rest: string)
    ensures ParseOptString(PrintOptString(o) + rest) == Done(o, rest)
    ensures Clean(PrintOptString(o))
  {
    if o.None? {
      assert ("null" + rest)[4..] == rest;
      assert ("null" + rest)[..4] == "null";
    } else {
      ParseQuoted(o.value, rest);
      var s := PrintOptString(o) + rest;
      assert s[0] == '"' && "null"[0] == 'n';
    }
  }

  lemma {:induction false} SpanStops(number: string, rest: string)
    requires forall i | 0 <= i < |number| :: NumberChar(number[i])
    requires rest == "" || !NumberChar(rest[0])
    ensures Span(number + rest) == |number|
  {
    if number != "" {
      assert (number + rest)[1..] == number[1..] + rest;
      SpanStops(number[1..], rest);
    } else {
      assert number + rest == rest;
    }
  }

  lemma PrintedNumber(i: int)
    ensures var s := Decimal.Print(i); s != "" && Clean(s) && forall k | 0 <= k < |s| :: NumberChar(s[k])
  {}

  lemma ParseNumber(number: string, v: int, lo: int, hi: int, rest: string)
    requires number != "" && forall k | 0 <= k < |number| :: NumberChar(number[k])
    requires rest != "" && !NumberChar(rest[0])
    requires Decimal.Parse(number, lo, hi) == Some(v) && Decimal.Print(v) == number
    ensures ParseOptInt(number + rest, lo, hi) == Done(Some(v), rest)
  {
    SpanStops(number, rest);
    var s := number + rest;
    assert s[..|number|] == number && s[|number|..] == rest;
    assert s[0] == number[0] && "null"[0] == 'n';
  }

  lemma ParsePrintedOptInt(o: Option<int>, lo: int, hi: int, rest: string)
    requires o.Some? ==> lo <= o.value <= hi
    requires lo <= 0 && rest != "" && !NumberChar(rest[0])
    ensures ParseOptInt(PrintOptInt(o) + rest, lo, hi) == Done(o, rest)
    ensures Clean(PrintOptInt(o))
  {
    if o.None? {
      assert ("null" + rest)[4..] == rest;
      assert ("null" + rest)[..4] == "null";
    } else {
      PrintedNumber(o.value);
      Decimal.ParsePrint(o.value, lo, hi);
      ParseNumber(Decimal.Print(o.value), o.value, lo, hi, rest);
    }
  }

  lemma LiteralStep(lit: string, rest: string)
    ensures Literal(lit, lit + rest) == Done((), rest)
  {}

  /** A field is its key, its value and what follows. */
  lemma FieldParts(key: string, value: string, rest: string)
    requires key != "" && Clean(key) && Clean(value) && Clean(rest)
    ensures Literal(key, key + (value + rest)) == Done((), value + rest)
    ensures Clean(key + (value + rest)) && key + (value + rest) != "" && (key + (value + rest))[0] == key[0]
  {
    LiteralStep(key, value + rest);
    CleanConcat(value, rest);
    CleanConcat(key, value + rest);
  }

  lemma KeysAreClean()
    ensures Clean(",\"ttl\":") && Clean(",\"payload\":") && Clean(",\"sortindex\":") && Clean("{\"id\":") && Clean("}")
  {}

  lemma TtlParsed(s: string, value: string, ttl: Option<int>)
    requires Literal(",\"ttl\":", s) == Done((), value) && ParseOptInt(value, 0, 0xffff_ffff) == Done(ttl, "}")
    ensures ParseTtl(s) == Some(NarrowU32(ttl))
  {}

  lemma ParsePrintedTtl(item: Item)
    ensures ParseTtl(PrintTtl(item)) == Some(item.ttl)
    ensures Clean(PrintTtl(item)) && PrintTtl(item) != "" && PrintTtl(item)[0] == ','
  {
    KeysAreClean();
    ParsePrintedOptInt(item.ttl, 0, 0xffff_ffff, "}");
    FieldParts(",\"ttl\":", PrintOptInt(item.ttl), "}");
    TtlParsed(PrintTtl(item), PrintOptInt(item.ttl) + "}", item.ttl);
  }

  lemma PayloadParsed(s: string, value: string, payload: Option<string>, rest: string, ttl: Option<U32>)
    requires Literal(",\"payload\":", s) == Done((), value) && ParseOptString(value) == Done(payload, rest)
    requires ParseTtl(rest) == Some(ttl)
    ensures ParsePayload(s) == Some((payload, ttl))
  {}

  lemma ParsePrintedPayload(item: Item)
    ensures ParsePayload(PrintPayload(item)) == Some((item.payload, item.ttl))
    ensures Clean(PrintPayload(item)) && PrintPayload(item) != "" && PrintPayload(item)[0] == ','
  {
    KeysAreClean();
    ParsePrintedTtl(item);
    ParsePrintedOptString(item.payload, PrintTtl(item));
    FieldParts(",\"payload\":", PrintOptString(item.payload), PrintTtl(item));
    PayloadParsed(PrintPayload(item), PrintOptString(item.payload) + PrintTtl(item), item.payload, PrintTtl(item),
                  item.ttl);
  }

  lemma SortindexParsed(s: string, value: string, sortindex: Option<int>, rest: string,
                        payload: Option<string>, ttl: Option<U32>)
    requires Literal(",\"sortindex\":", s) == Done((), value)
    requires ParseOptInt(value, -0x8000_0000, 0x7fff_ffff) == Done(sortindex, rest)
    requires ParsePayload(rest) == Some((payload, ttl))
    ensures ParseSortindex(s) == Some((Narrow32(sortindex), payload, ttl))
  {}

  lemma ParsePrintedSortindex(item: Item)
    ensures ParseSortindex(PrintSortindex(item)) == Some((item.sortindex, item.payload, item.ttl))
    ensures Clean(PrintSortindex(item))
  {
    var payload := PrintPayload(item);
    KeysAreClean();
    ParsePrintedPayload(item);
    ParsePrintedOptInt(item.sortindex, -0x8000_0000, 0x7fff_ffff, payload);
    FieldParts(",\"sortindex\":", PrintOptInt(item.sortindex), payload);
    SortindexParsed(PrintSortindex(item), PrintOptInt(item.sortindex) + payload, item.sortindex, payload,
                    item.payload, item.ttl);
  }

  lemma ItemParsed(s: string, value: string, id: string, rest: string, item: Item)
    requires Literal("{\"id\":", s) == Done((), value) && ParseString(value) == Done(id, rest)
    requires id == item.id && ParseSortindex(rest) == Some((item.sortindex, item.payload, item.ttl))
    ensures ParseItem(s) == Some(item)
  {}

  lemma ParsePrintedItem(item: Item)
    ensures ParseItem(PrintItem(item)) == Some(item)
    ensures Clean(PrintItem(item))
  {
    var rest := PrintSortindex(item);
    KeysAreClean();
    ParsePrintedSortindex(item);
    ParseQuoted(item.id, rest);
    FieldParts("{\"id\":", Quote(item.id), rest);
    ItemParsed(PrintItem(item), Quote(item.id) + rest, item.id, rest, item);
  }

  // ----- the stored text is a homomorphic code -----

  /** Every text the store ever holds: empty, or ending with a newline. */
  predicate Terminated(s: string) { s != "" ==> s[|s| - 1] == '\n' }

  function Combine(a: Result<seq<Item>>, b: Result<seq<Item>>): Result<seq<Item>> {
    if a.Err? then a else if b.Err? then b else Ok(a.value + b.value)
  }

  lemma {:induction false} LinesConcat(line: string, a: string, b: string)
    requires a != "" && Terminated(a)
    ensures LinesFrom(line, a + b) == LinesFrom(line, a) + Lines(b)
    decreases |a|
  {
    assert (a + b)[1..] == a[1..] + b;
    if |a| == 1 {
      assert a[1..] == "" && "" + b == b;
    } else if a[0] == '\n' {
      LinesConcat("", a[1..], b);
    } else {
      LinesConcat(line + [a[0]], a[1..], b);
    }
  }

  lemma {:induction false} LinesOfClean(line: string, s: string)
    requires Clean(s)
    ensures LinesFrom(line, s + "\n") == [StripReturn(line + s)]
    decreases |s|
  {
    if s == "" {
      assert s + "\n" == "\n" && "\n"[1..] == "" && line + s == line;
    } else {
      assert (s + "\n")[1..] == s[1..] + "\n";
      LinesOfClean(line + [s[0]], s[1..]);
      assert line + [s[0]] + s[1..] == line + s;
    }
  }

  lemma ParseLinesCons(line: string, lines: seq<string>)
    ensures ParseLines([line] + lines)
         == if ParseItem(line).None? then Err(Internal)
            else Combine(Ok([ParseItem(line).value]), ParseLines(lines))
  {}

  lemma CombineAssociates(a: Result<seq<Item>>, b: Result<seq<Item>>, c: Result<seq<Item>>)
    ensures Combine(a, Combine(b, c)) == Combine(Combine(a, b), c)
  {
    if a.Ok? && b.Ok? && c.Ok? {
      assert a.value + (b.value + c.value) == (a.value + b.value) + c.value;
    }
  }

  lemma ParseLinesConcatStep(line: string, a: seq<string>, b: seq<string>)
    requires ParseLines(a + b) == Combine(ParseLines(a), ParseLines(b))
    ensures ParseLines([line] + (a + b)) == Combine(ParseLines([line] + a), ParseLines(b))
  {
    ParseLinesCons(line, a + b);
    ParseLinesCons(line, a);
    if ParseItem(line).Some? {
      CombineAssociates(Ok([ParseItem(line).value]), ParseLines(a), ParseLines(b));
    }
  }

  lemma ConsConcat<T>(a: seq<T>, b: seq<T>)
    requires |a| > 0
    ensures a == [a[0]] + a[1..] && a + b == [a[0]] + (a[1..] + b)
  {}

  lemma {:induction false} ParseLinesConcat(a: seq<string>, b: seq<string>)
    ensures ParseLines(a + b) == Combine(ParseLines(a), ParseLines(b))
  {
    if |a| == 0 {
      assert a + b == b;
      assert ParseLines(b).Ok? ==> [] + ParseLines(b).value == ParseLines(b).value;
    } else {
      ParseLinesConcat(a[1..], b);
      ParseLinesConcatStep(a[0], a[1..], b);
      ConsConcat(a, b);
    }
  }

  /** Appending text to a stored batch appends exactly the items that text stands for. */
  lemma Homomorphism(a: string, b: string)
    requires Terminated(a)
    ensures BatchStringToBsos(a + b) == Combine(BatchStringToBsos(a), BatchStringToBsos(b))
  {
    if a == "" {
      assert a + b == b;
      if BatchStringToBsos(b).Ok? { assert [] + BatchStringToBsos(b).value == BatchStringToBsos(b).value; }
    } else {
      LinesConcat("", a, b);
      ParseLinesConcat(Lines(a), Lines(b));
    }
  }

  lemma BatchStringCons(item: Item, items: seq<Item>)
    ensures BsosToBatchString([item] + items) == (PrintItem(item) + "\n") + BsosToBatchString(items)
  {
    var lines := PrintItems([item] + items);
    assert lines[1..] == PrintItems(items);
    if |items| > 0 {
      assert BsosToBatchString([item] + items)
          == PrintItem(item) + "\n" + Join(PrintItems(items), "\n") + "\n";
    } else {
      assert items == [] && [item] + items == [item];
    }
  }

  lemma PrintedLine(item: Item)
    ensures BatchStringToBsos(PrintItem(item) + "\n") == Ok([item])
  {
    var line := PrintItem(item);
    ParsePrintedItem(item);
    LinesOfClean("", line);
    assert "" + line == line;
    ParseOneLine(line, item);
  }

  lemma ParseOneLine(line: string, item: Item)
    requires ParseItem(line) == Some(item)
    ensures ParseLines([line]) == Ok([item])
  {
    assert ParseLines([line][1..]) == Ok([]);
    assert [item] + [] == [item];
  }

  lemma {:induction false} RoundTrip(items: seq<Item>)
    ensures BatchStringToBsos(BsosToBatchString(items)) == Ok(items)
    ensures Terminated(BsosToBatchString(items))
  {
    if |items| == 0 {
      assert items == [];
    } else {
      var tail := items[1..];
      RoundTrip(tail);
      assert items == [items[0]] + tail;
      BatchStringCons(items[0], tail);
      PrintedLine(items[0]);
      Homomorphism(PrintItem(items[0]) + "\n", BsosToBatchString(tail));
    }
  }

  function Concat(posts: seq<seq<Item>>): seq<Item> {
    if |posts| == 0 then [] else Concat(posts[..|posts| - 1]) + posts[|posts| - 1]
  }

  /** What a batch row holds after a create and any number of appends. */
  function Stored(posts: seq<seq<Item>>): string {
    if |posts| == 0 then "" else Stored(posts[..|posts| - 1]) + BsosToBatchString(posts[|posts| - 1])
  }

  lemma {:induction false} StoredDecodes(posts: seq<seq<Item>>)
    ensures BatchStringToBsos(Stored(posts)) == Ok(Concat(posts))
    ensures Terminated(Stored(posts))
  {
    if |posts| > 0 {
      var before, last := posts[..|posts| - 1], posts[|posts| - 1];
      StoredDecodes(before);
      RoundTrip(last);
      Homomorphism(Stored(before), BsosToBatchString(last));
      assert BsosToBatchString(last) == "" ==> Stored(posts) == Stored(before);
    }
  }
}
