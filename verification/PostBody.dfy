/**
 * A POST body is split into valid and invalid records under the byte and record limits
 * (`BsoBodies` and `CollectionPostRequest` in src/web/extractors.rs).
 */
module PostBody {
  import opened Wrappers
  import opened Bso
  import Utf8

  /** A member of a JSON object, as far as deserialization tells kinds apart. */
  datatype Field = Missing | Null | Text(text: string) | Number(n: int) | Other

  /** An element of the body: any JSON value; `unknown` tells of members the server does not know. */
  datatype Json =
    | NotAnObject
    | Object(id: Field, sortindex: Field, payload: Field, ttl: Field, unknown: bool)

  const BSO_MAX_TTL: int := 999_999_999
  const BSO_MAX_SORTINDEX_VALUE: int := 999_999_999
  const BSO_MIN_SORTINDEX_VALUE: int := -999_999_999

  datatype Reason = InvalidBso | RetryBytes | RetryBso

  datatype Bodies = Bodies(valid: seq<Item>, invalid: map<string, Reason>)

  predicate ValidId(id: string) {
    1 <= |id| <= 64 && forall i | 0 <= i < |id| :: ' ' <= id[i] <= '~'
  }

  /** Every member of the element is known, of its kind and in its range; any but the id may be missing. */
  predicate WellFormed(val: Json) {
    && val.Object? && !val.unknown
    && val.id.Text? && 1 <= |val.id.text| <= 64 && (forall i | 0 <= i < |val.id.text| :: ' ' <= val.id.text[i] <= '~')
    && (val.sortindex.Missing? || val.sortindex.Null?
        || (val.sortindex.Number? && -999_999_999 <= val.sortindex.n <= 999_999_999))
    && (val.payload.Missing? || val.payload.Null? || val.payload.Text?)
    && (val.ttl.Missing? || val.ttl.Null? || (val.ttl.Number? && 0 <= val.ttl.n <= 999_999_999))
  }

  /** The record says what the element says. */
  predicate Says(item: Item, val: Json) {
    && val.Object? && val.id == Text(item.id)
    && (if val.sortindex.Number? then item.sortindex == Some(val.sortindex.n) else item.sortindex.None?)
    && (if val.payload.Text? then item.payload == Some(val.payload.text) else item.payload.None?)
    && (if val.ttl.Number? then item.ttl == Some(val.ttl.n) else item.ttl.None?)
  }

  /** `from_raw_bso`: None when the record is malformed or a field is out of range. */
  function FromRawBso(val: Json): (r: Option<Item>)
    ensures r.Some? <==> WellFormed(val)
    ensures r.Some? ==> Says(r.value, val)
  {
    if val.NotAnObject? || val.unknown || !val.id.Text? || !ValidId(val.id.text) then None
    else if !(val.sortindex.Missing? || val.sortindex.Null? || val.sortindex.Number?) then None
    else if !(val.payload.Missing? || val.payload.Null? || val.payload.Text?) then None
    else if !(val.ttl.Missing? || val.ttl.Null? || val.ttl.Number?) then None
    else if val.sortindex.Number? && !(BSO_MIN_SORTINDEX_VALUE <= val.sortindex.n <= BSO_MAX_SORTINDEX_VALUE) then None
    else if val.ttl.Number? && !(0 <= val.ttl.n <= BSO_MAX_TTL) then None
    else Some(Item(val.id.text,
                   if val.sortindex.Number? then Some(val.sortindex.n) else None,
                   if val.payload.Text? then Some(val.payload.text) else None,
                   if val.ttl.Number? then Some(val.ttl.n) else None))
  }

  /** The length of the payload in bytes. */
  function PayloadSize(item: Item): nat {
    if item.payload.Some? then |Utf8.Encode(item.payload.value)| else 0
  }

  function TotalSize(items: seq<Item>): nat {
    if |items| == 0 then 0 else TotalSize(items[..|items| - 1]) + PayloadSize(items[|items| - 1])
  }

  // ----- what the split is -----

  predicate HaveTextIds(bsos: seq<Json>) {
    forall i | 0 <= i < |bsos| :: bsos[i].Object? && bsos[i].id.Text?
  }

  /** A body is accepted if every element is an object with a text id and no id comes twice. */
  predicate Acceptable(bsos: seq<Json>) {
    && HaveTextIds(bsos)
    && (forall i, j | 0 <= i < j < |bsos| :: bsos[i].id != bsos[j].id)
  }

  /** The bytes of the payload of an element. */
  function PayloadBytes(val: Json): nat
    requires val.Object?
  {
    if val.payload.Text? then |Utf8.Encode(val.payload.text)| else 0
  }

  /** The bytes of all well-formed records, kept or not: a record that is too large counts as well. */
  function SizeSoFar(bsos: seq<Json>): nat {
    if |bsos| == 0 then 0
    else
      var last := bsos[|bsos| - 1];
      SizeSoFar(bsos[..|bsos| - 1]) + (if WellFormed(last) then PayloadBytes(last) else 0)
  }

  /** Whether the last record of `bsos` fits the limits. */
  predicate KeepsLast(bsos: seq<Json>, maxPayload: nat, maxPostBytes: nat)
    requires |bsos| > 0
  {
    var last := bsos[|bsos| - 1];
    WellFormed(last) && PayloadBytes(last) <= maxPayload && SizeSoFar(bsos) <= maxPostBytes
  }

  function Kept(bsos: seq<Json>, maxPayload: nat, maxPostBytes: nat): seq<Item> {
    if |bsos| == 0 then []
    else
      var before := Kept(bsos[..|bsos| - 1], maxPayload, maxPostBytes);
      if KeepsLast(bsos, maxPayload, maxPostBytes) then before + [FromRawBso(bsos[|bsos| - 1]).value] else before
  }

  function Rejected(bsos: seq<Json>, maxPayload: nat, maxPostBytes: nat): map<string, Reason>
    requires HaveTextIds(bsos)
  {
    if |bsos| == 0 then map[]
    else
      var before := Rejected(bsos[..|bsos| - 1], maxPayload, maxPostBytes);
      var last := bsos[|bsos| - 1];
      if KeepsLast(bsos, maxPayload, maxPostBytes) then before
      else before[last.id.text := if WellFormed(last) then RetryBytes else InvalidBso]
  }

  /** The loop of `BsoBodies::from_request`. */
  method SplitBody(bsos: seq<Json>, maxPayload: nat, maxPostBytes: nat) returns (r: Result<Bodies>)
    ensures r.Ok? <==> Acceptable(bsos)
    ensures r.Ok? ==> r.value == Bodies(Kept(bsos, maxPayload, maxPostBytes), Rejected(bsos, maxPayload, maxPostBytes))
  {
    var valid: seq<Item> := [];
    var invalid: map<string, Reason> := map[];
    var totalPayloadSize := 0;
    var bsoIds: seq<string> := [];
    var i := 0;
    while i < |bsos|
      invariant i <= |bsos| && Acceptable(bsos[..i]) && |bsoIds| == i
      invariant forall k | 0 <= k < i :: bsos[k].id == Text(bsoIds[k])
      invariant totalPayloadSize == SizeSoFar(bsos[..i])
      invariant valid == Kept(bsos[..i], maxPayload, maxPostBytes)
      invariant invalid == Rejected(bsos[..i], maxPayload, maxPostBytes)
    {
      var bso := bsos[i];
      if bso.NotAnObject? || !bso.id.Text? {
        return Err(Internal);
      }
      if bso.id.text in bsoIds {
        return Err(Internal);
      }
      bsoIds := bsoIds + [bso.id.text];
      ghost var next := bsos[..i + 1];
      assert next[..|next| - 1] == bsos[..i];
      match FromRawBso(bso) {
        case Some(b) =>
          var payloadSize := PayloadSize(b);
          totalPayloadSize := totalPayloadSize + payloadSize;
          if payloadSize <= maxPayload && totalPayloadSize <= maxPostBytes {
            valid := valid + [b];
          } else {
            invalid := invalid[b.id := RetryBytes];
          }
        case None =>
          invalid := invalid[bso.id.text := InvalidBso];
      }
      i := i + 1;
    }
    assert bsos[..i] == bsos;
    r := Ok(Bodies(valid, invalid));
  }

  /** The pop loop of `CollectionPostRequest::from_request`: records beyond the limit are to be sent again. */
  method TrimExcess(bodies: Bodies, maxPostRecords: nat) returns (r: Bodies)
    ensures r.valid == bodies.valid[..if maxPostRecords < |bodies.valid| then maxPostRecords else |bodies.valid|]
    ensures forall id :: id in r.invalid <==> id in bodies.invalid || id in Ids(bodies.valid[|r.valid|..])
    ensures forall id | id in r.invalid ::
      r.invalid[id] == if id in Ids(bodies.valid[|r.valid|..]) then RetryBso else bodies.invalid[id]
  {
    r := bodies;
    var overage := |bodies.valid| - maxPostRecords;
    if overage > 0 {
      var n := 0;
      while n < overage
        invariant n <= overage
        invariant r.valid == bodies.valid[..|bodies.valid| - n]
        invariant forall id ::
          id in r.invalid <==> id in bodies.invalid || id in Ids(bodies.valid[|bodies.valid| - n..])
        invariant forall id | id in r.invalid ::
          r.invalid[id] == if id in Ids(bodies.valid[|bodies.valid| - n..]) then RetryBso else bodies.invalid[id]
      {
        var last := r.valid[|r.valid| - 1];
        IdsCons(bodies.valid, |bodies.valid| - n - 1);
        r := Bodies(r.valid[..|r.valid| - 1], r.invalid[last.id := RetryBso]);
        n := n + 1;
      }
    }
  }

  lemma IdsCons(items: seq<Item>, k: nat)
    requires k < |items|
    ensures Ids(items[k..]) == {items[k].id} + Ids(items[k + 1..])
  {}

  // ----- every posted id is accounted for once -----

  function PostedIds(bsos: seq<Json>): set<string>
    requires HaveTextIds(bsos)
  {
    set i | 0 <= i < |bsos| :: bsos[i].id.text
  }

  /** `kept` is a subsequence of the records of `bsos`, in the same order. */
  predicate InOrder(kept: seq<Item>, bsos: seq<Json>) {
    |kept| == 0 ||
    (|bsos| > 0 &&
     (InOrder(kept, bsos[..|bsos| - 1])
      || (Says(kept[|kept| - 1], bsos[|bsos| - 1]) && InOrder(kept[..|kept| - 1], bsos[..|bsos| - 1]))))
  }

  lemma PostedIdsSnoc(bsos: seq<Json>)
    requires |bsos| > 0 && HaveTextIds(bsos)
    ensures PostedIds(bsos) == PostedIds(bsos[..|bsos| - 1]) + {bsos[|bsos| - 1].id.text}
  {}

  /** Kept and rejected ids are disjoint, cover the body, and the kept records keep their order. */
  lemma {:induction false} EveryIdOnce(bsos: seq<Json>, maxPayload: nat, maxPostBytes: nat)
    requires Acceptable(bsos)
    ensures var kept := Kept(bsos, maxPayload, maxPostBytes);
      var rejected := Rejected(bsos, maxPayload, maxPostBytes);
      Ids(kept) !! rejected.Keys && Ids(kept) + rejected.Keys == PostedIds(bsos)
      && DistinctIds(kept) && InOrder(kept, bsos)
  {
    if |bsos| > 0 {
      var before, last := bsos[..|bsos| - 1], bsos[|bsos| - 1];
      EveryIdOnce(before, maxPayload, maxPostBytes);
      PostedIdsSnoc(bsos);
      assert last.id.text !in PostedIds(before);
      var kept := Kept(before, maxPayload, maxPostBytes);
      if KeepsLast(bsos, maxPayload, maxPostBytes) {
        var item := FromRawBso(last).value;
        IdsSnoc(kept, item);
        assert forall i | 0 <= i < |kept| :: kept[i].id in Ids(kept);
        assert (kept + [item])[..|kept|] == kept;
      }
    }
  }

  /** The kept records fit the limits: each payload the record limit, all of them together the post limit. */
  lemma {:induction false} KeptFit(bsos: seq<Json>, maxPayload: nat, maxPostBytes: nat)
    ensures var kept := Kept(bsos, maxPayload, maxPostBytes);
      (forall i | 0 <= i < |kept| :: PayloadSize(kept[i]) <= maxPayload)
      && TotalSize(kept) <= SizeSoFar(bsos) && TotalSize(kept) <= maxPostBytes
  {
    if |bsos| > 0 {
      var before := bsos[..|bsos| - 1];
      KeptFit(before, maxPayload, maxPostBytes);
      var kept := Kept(before, maxPayload, maxPostBytes);
      if KeepsLast(bsos, maxPayload, maxPostBytes) {
        var item := FromRawBso(bsos[|bsos| - 1]).value;
        assert (kept + [item])[..|kept|] == kept;
      }
    }
  }

  lemma {:induction false} SizeGrows(bsos: seq<Json>, n: nat)
    requires n <= |bsos|
    ensures SizeSoFar(bsos[..n]) <= SizeSoFar(bsos)
  {
    if n < |bsos| {
      SizeGrows(bsos[..|bsos| - 1], n);
      assert bsos[..|bsos| - 1][..n] == bsos[..n];
    } else {
      assert bsos[..n] == bsos;
    }
  }

  /** Once the post limit is passed no later record is kept, however small. */
  lemma {:induction false} NothingAfterTheLimit(bsos: seq<Json>, n: nat, maxPayload: nat, maxPostBytes: nat)
    requires n <= |bsos| && SizeSoFar(bsos[..n]) > maxPostBytes
    ensures Kept(bsos, maxPayload, maxPostBytes) == Kept(bsos[..n], maxPayload, maxPostBytes)
  {
    if n < |bsos| {
      SizeGrows(bsos, n);
      assert bsos[..|bsos| - 1][..n] == bsos[..n];
      NothingAfterTheLimit(bsos[..|bsos| - 1], n, maxPayload, maxPostBytes);
    } else {
      assert bsos[..n] == bsos;
    }
  }

  lemma {:induction false} TotalSizeOfPrefix(items: seq<Item>, n: nat)
    requires n <= |items|
    ensures TotalSize(items[..n]) <= TotalSize(items)
  {
    if n < |items| {
      TotalSizeOfPrefix(items[..|items| - 1], n);
      assert items[..|items| - 1][..n] == items[..n];
    } else {
      assert items[..n] == items;
    }
  }

  lemma IdsSplit(items: seq<Item>, n: nat)
    requires n <= |items| && DistinctIds(items)
    ensures Ids(items[..n]) !! Ids(items[n..]) && Ids(items[..n]) + Ids(items[n..]) == Ids(items)
    ensures DistinctIds(items[..n])
  {}

  lemma {:induction false} InOrderPrefix(kept: seq<Item>, bsos: seq<Json>, n: nat)
    requires n <= |kept| && InOrder(kept, bsos)
    ensures InOrder(kept[..n], bsos)
    decreases |bsos|
  {
    if n == |kept| {
      assert kept[..n] == kept;
    } else {
      var before := bsos[..|bsos| - 1];
      if InOrder(kept, before) {
        InOrderPrefix(kept, before, n);
      } else {
        InOrderPrefix(kept[..|kept| - 1], before, n);
        assert kept[..|kept| - 1][..n] == kept[..n];
      }
    }
  }

  // ----- what becomes of each element -----

  lemma {:induction false} KeptPrefix(bsos: seq<Json>, n: nat, maxPayload: nat, maxPostBytes: nat)
    requires n <= |bsos|
    ensures Kept(bsos[..n], maxPayload, maxPostBytes) <= Kept(bsos, maxPayload, maxPostBytes)
  {
    if n < |bsos| {
      KeptPrefix(bsos[..|bsos| - 1], n, maxPayload, maxPostBytes);
      assert bsos[..|bsos| - 1][..n] == bsos[..n];
    } else {
      assert bsos[..n] == bsos;
    }
  }

  /** What the loop makes of an element: it is rejected, malformed or too much, or kept after those before it. */
  predicate Sifted(bsos: seq<Json>, j: nat, maxPayload: nat, maxPostBytes: nat, valid: seq<Item>,
                   invalid: map<string, Reason>)
    requires j < |bsos| && HaveTextIds(bsos)
  {
    var id, position := bsos[j].id.text, |Kept(bsos[..j], maxPayload, maxPostBytes)|;
    if !WellFormed(bsos[j]) then id in invalid && invalid[id] == InvalidBso
    else if PayloadBytes(bsos[j]) > maxPayload || SizeSoFar(bsos[..j + 1]) > maxPostBytes
    then id in invalid && invalid[id] == RetryBytes
    else id !in invalid && position < |valid| && Says(valid[position], bsos[j])
  }

  lemma LastSifted(bsos: seq<Json>, maxPayload: nat, maxPostBytes: nat)
    requires |bsos| > 0 && Acceptable(bsos)
    ensures Sifted(bsos, |bsos| - 1, maxPayload, maxPostBytes, Kept(bsos, maxPayload, maxPostBytes),
                   Rejected(bsos, maxPayload, maxPostBytes))
  {
    var n := |bsos| - 1;
    assert bsos[..n + 1] == bsos;
    EveryIdOnce(bsos[..n], maxPayload, maxPostBytes);
    assert bsos[n].id.text !in PostedIds(bsos[..n]);
  }

  lemma SiftedEarlier(bsos: seq<Json>, j: nat, maxPayload: nat, maxPostBytes: nat)
    requires |bsos| > 0 && Acceptable(bsos) && j < |bsos| - 1
    requires var before := bsos[..|bsos| - 1];
      Sifted(before, j, maxPayload, maxPostBytes, Kept(before, maxPayload, maxPostBytes),
             Rejected(before, maxPayload, maxPostBytes))
    ensures Sifted(bsos, j, maxPayload, maxPostBytes, Kept(bsos, maxPayload, maxPostBytes),
                   Rejected(bsos, maxPayload, maxPostBytes))
  {
    var n := |bsos| - 1;
    assert bsos[..n][..j] == bsos[..j] && bsos[..n][..j + 1] == bsos[..j + 1] && bsos[..n][j] == bsos[j];
    assert bsos[n].id != bsos[j].id;
    KeptPrefix(bsos, n, maxPayload, maxPostBytes);
  }

  lemma {:induction false} AllSifted(bsos: seq<Json>, j: nat, maxPayload: nat, maxPostBytes: nat)
    requires Acceptable(bsos) && j < |bsos|
    ensures Sifted(bsos, j, maxPayload, maxPostBytes, Kept(bsos, maxPayload, maxPostBytes),
                   Rejected(bsos, maxPayload, maxPostBytes))
    decreases |bsos|
  {
    if j == |bsos| - 1 {
      LastSifted(bsos, maxPayload, maxPostBytes);
    } else {
      AllSifted(bsos[..|bsos| - 1], j, maxPayload, maxPostBytes);
      SiftedEarlier(bsos, j, maxPayload, maxPostBytes);
    }
  }

  /**
   * What becomes of an element of the body: it is rejected as invalid exactly if it is malformed, to
   * be sent again exactly if it is too large, comes after too many bytes or after too many records,
   * and otherwise it is the valid record after those before it, with all its members.
   */
  predicate Accounted(bsos: seq<Json>, j: nat, maxPayload: nat, maxPostBytes: nat, maxPostRecords: nat, bodies: Bodies)
    requires j < |bsos| && HaveTextIds(bsos)
  {
    var id, position := bsos[j].id.text, |Kept(bsos[..j], maxPayload, maxPostBytes)|;
    if !WellFormed(bsos[j]) then id in bodies.invalid && bodies.invalid[id] == InvalidBso
    else if PayloadBytes(bsos[j]) > maxPayload || SizeSoFar(bsos[..j + 1]) > maxPostBytes
    then id in bodies.invalid && bodies.invalid[id] == RetryBytes
    else if position >= maxPostRecords then id in bodies.invalid && bodies.invalid[id] == RetryBso
    else id !in bodies.invalid && position < |bodies.valid| && Says(bodies.valid[position], bsos[j])
  }

  /** The last records of the loop are taken back: what becomes of one of them, and of any other. */
  lemma TrimmedAccounts(bsos: seq<Json>, j: nat, maxPayload: nat, maxPostBytes: nat, maxPostRecords: nat,
                        bodies: Bodies, trimmed: Bodies)
    requires j < |bsos| && HaveTextIds(bsos) && DistinctIds(bodies.valid)
    requires Ids(bodies.valid) !! bodies.invalid.Keys
    requires Sifted(bsos, j, maxPayload, maxPostBytes, bodies.valid, bodies.invalid)
    requires |trimmed.valid| == if maxPostRecords < |bodies.valid| then maxPostRecords else |bodies.valid|
    requires trimmed.valid == bodies.valid[..|trimmed.valid|]
    requires forall id ::
      id in trimmed.invalid <==> id in bodies.invalid || id in Ids(bodies.valid[|trimmed.valid|..])
    requires forall id | id in trimmed.invalid ::
      trimmed.invalid[id] == if id in Ids(bodies.valid[|trimmed.valid|..]) then RetryBso else bodies.invalid[id]
    ensures Accounted(bsos, j, maxPayload, maxPostBytes, maxPostRecords, trimmed)
  {
    var n, id := |trimmed.valid|, bsos[j].id.text;
    var position := |Kept(bsos[..j], maxPayload, maxPostBytes)|;
    IdsSplit(bodies.valid, n);
    if id !in bodies.invalid {
      assert bodies.valid[position].id == id;
      if position < n {
        assert trimmed.valid[position] == bodies.valid[position];
        assert trimmed.valid[position].id in Ids(bodies.valid[..n]);
      } else {
        assert bodies.valid[n..][position - n] == bodies.valid[position];
      }
    }
  }

  /** An accepted POST: what the extractors make of a body, and everything they promise about it. */
  method ExtractPost(bsos: seq<Json>, maxPayload: nat, maxPostBytes: nat, maxPostRecords: nat)
      returns (r: Result<Bodies>)
    ensures r.Ok? <==> Acceptable(bsos)
    ensures r.Ok? ==>
      var Bodies(valid, invalid) := r.value;
      && DistinctIds(valid) && Ids(valid) !! invalid.Keys && Ids(valid) + invalid.Keys == PostedIds(bsos)
      && valid <= Kept(bsos, maxPayload, maxPostBytes)
      && (forall i | 0 <= i < |valid| :: PayloadSize(valid[i]) <= maxPayload)
      && TotalSize(valid) <= maxPostBytes && |valid| <= maxPostRecords
      && InOrder(valid, bsos)
      && forall j | 0 <= j < |bsos| :: Accounted(bsos, j, maxPayload, maxPostBytes, maxPostRecords, r.value)
  {
    r := SplitBody(bsos, maxPayload, maxPostBytes);
    if r.Ok? {
      var bodies := r.value;
      EveryIdOnce(bsos, maxPayload, maxPostBytes);
      KeptFit(bsos, maxPayload, maxPostBytes);
      var trimmed := TrimExcess(bodies, maxPostRecords);
      TotalSizeOfPrefix(bodies.valid, |trimmed.valid|);
      IdsSplit(bodies.valid, |trimmed.valid|);
      InOrderPrefix(bodies.valid, bsos, |trimmed.valid|);
      forall j | 0 <= j < |bsos|
        ensures Accounted(bsos, j, maxPayload, maxPostBytes, maxPostRecords, trimmed)
      {
        AllSifted(bsos, j, maxPayload, maxPostBytes);
        TrimmedAccounts(bsos, j, maxPayload, maxPostBytes, maxPostRecords, bodies, trimmed);
      }
      r := Ok(trimmed);
    }
  }
}
