/** The record table: the free-text filter that derives the displayed rows
    (components/DataTable.tsx `filteredData`) and the by-id cell edit
    (`handleCellEdit`). Both are pure: the edit builds a new sequence. */
module DataTable {

  import opened Types
  import opened Text
  import opened PriceDisplay

  // ---------------------------------------------------------------------
  // Order-preserving subsequences
  // ---------------------------------------------------------------------

  /** `idx` lists, in strictly increasing order, positions of `b` that spell `a`. */
  ghost predicate Embeds<T>(idx: seq<int>, a: seq<T>, b: seq<T>) {
    && |idx| == |a|
    && (forall k :: 0 <= k < |idx| ==> 0 <= idx[k] < |b| && a[k] == b[idx[k]])
    && (forall k, l :: 0 <= k < l < |idx| ==> idx[k] < idx[l])
  }

  /** `a` is obtained from `b` by deleting elements, keeping the order. */
  ghost predicate IsSubsequence<T>(a: seq<T>, b: seq<T>) {
    exists idx :: Embeds(idx, a, b)
  }

  /** A subsequence of the tail of `b` stays one of `b`, with or without the
      head of `b` in front of it. */
  lemma ExtendSubsequence<T>(a: seq<T>, b: seq<T>)
    requires b != [] && IsSubsequence(a, b[1..])
    ensures IsSubsequence(a, b) && IsSubsequence([b[0]] + a, b)
  {
    var idx :| Embeds(idx, a, b[1..]);
    assert Embeds(Shift(idx), a, b);
    assert Embeds([0] + Shift(idx), [b[0]] + a, b);
  }

  function Shift(idx: seq<int>): (r: seq<int>)
    ensures |r| == |idx| && forall k :: 0 <= k < |idx| ==> r[k] == idx[k] + 1
  {
    seq(|idx|, k requires 0 <= k < |idx| => idx[k] + 1)
  }

  // ---------------------------------------------------------------------
  // Filter
  // ---------------------------------------------------------------------

  /** The test applied to each record for an already lower-cased query:
      province (lower-cased), shown price, or date (lower-cased) includes it. */
  function MatchesQuery(item: HogPriceData, lowered: string): (b: bool)
    ensures b <==> || (exists i :: OccursAt(lowered, Lower(item.province), i))
                   || (exists i :: OccursAt(lowered, DisplayText(item.price), i))
                   || (exists i :: OccursAt(lowered, Lower(item.date), i))
    // the empty query occurs everywhere
    ensures lowered == [] ==> b
  {
    assert lowered == [] ==> OccursAt(lowered, Lower(item.province), 0);
    || Includes(Lower(item.province), lowered)
    || Includes(DisplayText(item.price), lowered)
    || Includes(Lower(item.date), lowered)
  }

  /** The records of `data` passing the test, in their original order. */
  function KeepMatching(data: seq<HogPriceData>, lowered: string): (r: seq<HogPriceData>)
    ensures |r| <= |data|
    ensures IsSubsequence(r, data)
    ensures forall x :: multiset(r)[x] == if MatchesQuery(x, lowered) then multiset(data)[x] else 0
    decreases |data|
  {
    if data == [] then assert Embeds([], [], data); []
    else
      var rest := KeepMatching(data[1..], lowered);
      ExtendSubsequence(rest, data);
      assert data == [data[0]] + data[1..];
      if MatchesQuery(data[0], lowered) then [data[0]] + rest else rest
  }

  /** A record is kept for a non-blank query when the lower-cased query,
      untrimmed, is a substring of its lower-cased province, of the decimal
      text of its rounded thousands price, or of its lower-cased date. */
  ghost predicate Kept(item: HogPriceData, query: string) {
    var q := Lower(query);
    || (exists i :: OccursAt(q, Lower(item.province), i))
    || (exists i :: OccursAt(q, DisplayText(item.price), i))
    || (exists i :: OccursAt(q, Lower(item.date), i))
  }

  /** `filteredData`: the whole table for a blank query, otherwise exactly the
      kept records, each as often as in `data` and in the same order. */
  function FilterData(data: seq<HogPriceData>, query: string): (r: seq<HogPriceData>)
    ensures AllWhitespace(query) ==> r == data
    ensures |r| <= |data| && IsSubsequence(r, data)
    ensures forall x :: multiset(r)[x] == if AllWhitespace(query) || Kept(x, query) then multiset(data)[x] else 0
    ensures forall x :: x in r <==> x in data && (AllWhitespace(query) || Kept(x, query))
  {
    TrimEmptyIffAllWhitespace(query);
    if Trim(query) == [] then
      assert Embeds(seq(|data|, i requires 0 <= i < |data| => i), data, data);
      data
    else
      KeepMatching(data, Lower(query))
  }

  /** Price matching uses the shown price: a record stored at 68500 VND/kg is
      shown as 69, so the query "68" does not select it. */
  lemma FilterUsesShownPrice()
    ensures FilterData([HaNoi], "68") == []
    ensures FilterData([HaNoi], "69") == [HaNoi]
  {
    FilterHaNoi68();
    FilterHaNoi69();
  }

  lemma FilterHaNoi68()
    ensures FilterData([HaNoi], "68") == []
  {
    NumericQuery("68");
    NoEightInHaNoi();
    KeepSingle(HaNoi, "68");
  }

  /** Filtering a one-record table keeps the record exactly when it matches. */
  lemma KeepSingle(item: HogPriceData, lowered: string)
    ensures KeepMatching([item], lowered) == if MatchesQuery(item, lowered) then [item] else []
  {
    assert [item][1..] == [];
  }

  lemma FilterHaNoi69()
    ensures FilterData([HaNoi], "69") == [HaNoi]
  {
    HalfRoundsUp();
    FoundByShownPrice(HaNoi);
  }

  /** Every record is found by the price the table shows for it. */
  lemma FoundByShownPrice(item: HogPriceData)
    ensures FilterData([item], DisplayText(item.price)) == [item]
  {
    var q := DisplayText(item.price);
    assert !IsJsWhitespace(q[|q| - 1]);
    TrimEmptyIffAllWhitespace(q);
    IntToStringChars(DisplayPrice(item.price));
    forall i | 0 <= i < |q| ensures Lower(q)[i] == q[i] {
      assert !IsUpper(q[i]);
    }
    assert Lower(q) == q;
    IncludesMiddle([], q, []);
    assert [] + q + [] == q;
    KeepSingle(item, q);
  }

  /** The record of the example: Hà Nội on 2024-01-01 at 68500 VND/kg. */
  const HaNoi := HogPriceData(1, "2024-01-01", "Hà Nội", 68500)

  lemma NoEightInHaNoi()
    ensures !MatchesQuery(HaNoi, "68")
  {
    var p := Lower(HaNoi.province);
    forall i | 0 <= i < |p| ensures p[i] != '8' {
      assert HaNoi.province[i] != '8';
    }
    NotIncludesMissingChar(p, "68", '8');
    assert DisplayText(HaNoi.price) == "69";
    NotIncludesMissingChar("69", "68", '8');
    var d := Lower(HaNoi.date);
    forall i | 0 <= i < |d| ensures d[i] != '8' {
      assert HaNoi.date[i] != '8';
    }
    NotIncludesMissingChar(d, "68", '8');
  }

  /** A two-digit query is neither blank nor changed by lower-casing. */
  lemma NumericQuery(q: string)
    requires |q| == 2 && IsDigit(q[0]) && IsDigit(q[1])
    ensures Trim(q) != [] && Lower(q) == q
  {
    NotBlank(q);
    assert LowerChar(q[0]) == q[0] && LowerChar(q[1]) == q[1];
  }

  lemma NotBlank(q: string)
    requires q != [] && IsDigit(q[0])
    ensures Trim(q) != []
  {
    TrimEmptyIffAllWhitespace(q);
    assert !IsJsWhitespace(q[0]);
  }

  // ---------------------------------------------------------------------
  // Cell edit
  // ---------------------------------------------------------------------

  /** The new value of one record after its `field` cell was edited to the
      text `value`. */
  function EditRecord(item: HogPriceData, field: Field, value: string): (r: HogPriceData)
    ensures r.id == item.id
    ensures field != Date ==> r.date == item.date
    ensures field != Province ==> r.province == item.province
    ensures field != Price ==> r.price == item.price
    ensures field == Date ==> r.date == value
    ensures field == Province ==> r.province == value
    ensures field == Price && (forall i :: 0 <= i < |value| ==> !IsDigit(value[i])) ==> r.price == item.price
    ensures field == Price && (exists i :: 0 <= i < |value| && IsDigit(value[i])) ==>
              r.price >= 0 && r.price % 1000 == 0 && r.price == 1000 * DigitsValue(StripNonDigits(value))
  {
    match field
    case Date => item.(date := value)
    case Province => item.(province := value)
    case Price =>
      match ParseDigitsOnly(value)
      case None => item
      case Some(n) => item.(price := n * 1000)
  }

  /** `handleCellEdit(id, field, value)`: every record with that id is edited,
      every other record is left as it was, and the table keeps its length,
      its order and its ids. */
  function HandleCellEdit(data: seq<HogPriceData>, id: int, field: Field, value: string): (r: seq<HogPriceData>)
    ensures |r| == |data|
    ensures forall i :: 0 <= i < |data| ==> r[i].id == data[i].id
    ensures forall i :: 0 <= i < |data| && data[i].id != id ==> r[i] == data[i]
    ensures forall i :: 0 <= i < |data| && data[i].id == id ==> r[i] == EditRecord(data[i], field, value)
  {
    seq(|data|, i requires 0 <= i < |data| => if data[i].id == id then EditRecord(data[i], field, value) else data[i])
  }

  /** Editing a price cell to text without any digit changes nothing. */
  lemma PriceEditWithoutDigitsIsNoOp(data: seq<HogPriceData>, id: int, value: string)
    requires forall i :: 0 <= i < |value| ==> !IsDigit(value[i])
    ensures HandleCellEdit(data, id, Price, value) == data
  {
  }

  /** Editing an id that no record carries changes nothing. */
  lemma EditOfAbsentIdIsNoOp(data: seq<HogPriceData>, id: int, field: Field, value: string)
    requires forall i :: 0 <= i < |data| ==> data[i].id != id
    ensures HandleCellEdit(data, id, field, value) == data
  {
  }

  /** Applying the same edit twice is the same as applying it once. */
  lemma EditIdempotent(data: seq<HogPriceData>, id: int, field: Field, value: string)
    ensures HandleCellEdit(HandleCellEdit(data, id, field, value), id, field, value)
         == HandleCellEdit(data, id, field, value)
  {
  }

  /** Edits of records with different ids do not interfere. */
  lemma EditsOfDifferentIdsCommute(data: seq<HogPriceData>, a: int, f: Field, v: string,
                                   b: int, g: Field, w: string)
    requires a != b
    ensures HandleCellEdit(HandleCellEdit(data, a, f, v), b, g, w)
         == HandleCellEdit(HandleCellEdit(data, b, g, w), a, f, v)
  {
  }

  /** A digit string as `String(n)` writes it: no leading zero unless it is "0". */
  predicate IsCanonicalNumeral(d: string) {
    d != [] && AllDigits(d) && (d[0] == '0' ==> |d| == 1)
  }

  lemma {:induction false} NatToStringOfDigitsValue(d: string)
    requires IsCanonicalNumeral(d)
    ensures NatToString(DigitsValue(d)) == d
    decreases |d|
  {
    if |d| > 1 {
      var p := d[..|d| - 1];
      NatToStringOfDigitsValue(p);
      var v := DigitsValue(p);
      assert v >= 1;
      assert d == p + [d[|d| - 1]];
    }
  }

  /** After a price edit the cell shows the digits that were typed, when
      they form a numeral without leading zeros. */
  lemma PriceEditShowsTypedDigits(item: HogPriceData, value: string)
    requires IsCanonicalNumeral(StripNonDigits(value))
    ensures DisplayText(EditRecord(item, Price, value).price) == StripNonDigits(value)
  {
    var d := StripNonDigits(value);
    NatToStringOfDigitsValue(d);
    DisplayOfThousands(DigitsValue(d));
  }

  /** The price cell is committed on every blur, even when its text was not
      changed: the shown text then parses back to the shown number, so the
      stored price becomes the rounded thousands (68500 becomes 69000), and a
      negative shown price loses its sign. */
  lemma BlurOfUnchangedPriceCell(item: HogPriceData)
    ensures EditRecord(item, Price, DisplayText(item.price)).price
         == 1000 * (if DisplayPrice(item.price) < 0 then -DisplayPrice(item.price) else DisplayPrice(item.price))
  {
    var k := DisplayPrice(item.price);
    var m: nat := if k < 0 then -k else k;
    var s := DisplayText(item.price);
    DigitsValueOfNatToString(m);
    if k < 0 {
      assert s == "-" + NatToString(m);
      assert StripNonDigits(s) == StripNonDigits(s[1..]);
      assert s[1..] == NatToString(m);
    }
    assert StripNonDigits(s) == NatToString(m);
  }

  /** The two examples of the price rule: "72" stores 72000, "abc" keeps the
      old price. */
  lemma PriceEditExamples(item: HogPriceData)
    ensures EditRecord(item, Price, "72").price == 72000
    ensures EditRecord(item, Price, "abc") == item
  {
    assert StripNonDigits("72") == "72";
    assert DigitsValue("72") == 72 by {
      assert "72"[..1] == "7";
    }
    assert !IsDigit("abc"[0]) && !IsDigit("abc"[1]) && !IsDigit("abc"[2]);
  }
}
