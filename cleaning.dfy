/**
 * The row-cleaning steps of Assignment3.py (lines 17-49): duplicate removal,
 * the product typo, the quantity floor, the price filter, the category
 * canonical form and the IsPromo flag, each over a whole table of orders.
 */
module OrderCleaning {
  import opened Wrappers
  import opened Seqs

  /**
   * One row of the order table, taken to be the whole row: duplicate removal
   * compares all of these fields, OrderDate (carried as its text) included.
   * Price is an exact number.
   */
  datatype Order = Order(
    customerId: int,
    product: string,
    category: string,
    quantity: int,
    price: real,
    region: Option<string>,
    promoCode: Option<string>,
    orderDate: string,
    returnFlag: int)

  /** An order after the IsPromo column has been added. */
  datatype PromoOrder = PromoOrder(order: Order, isPromo: int)

  // ---------------------------------------------------------------------------
  // Step 1: drop_duplicates (line 18)

  /** `df.drop_duplicates()`: the first occurrence of every distinct row, in row order. */
  function DropDuplicates(rows: seq<Order>): (r: seq<Order>)
    ensures Distinct(r)
    ensures forall i :: 0 <= i < |rows| ==> rows[i] in r
    ensures forall i :: 0 <= i < |r| ==> r[i] in rows
    ensures forall i, j :: 0 <= i < j < |r| ==> FirstIndex(rows, r[i]) < FirstIndex(rows, r[j])
  {
    DedupKeepsFirstOccurrenceOrder(rows);
    Dedup(rows)
  }

  // ---------------------------------------------------------------------------
  // Step 2: the product typo (line 21)

  /** `replace({"ProdA": "Product A"})` on one value: a whole-value match. */
  function FixProduct(p: string): (r: string)
    ensures r != "ProdA"
    ensures p != "ProdA" ==> r == p
    ensures r == "Product A" <==> p == "ProdA" || p == "Product A"
  {
    if p == "ProdA" then "Product A" else p
  }

  /** The Product column after line 21; no other column changes. */
  function FixProducts(rows: seq<Order>): (r: seq<Order>)
    ensures |r| == |rows|
    ensures forall i :: 0 <= i < |r| ==> r[i].product == FixProduct(rows[i].product)
    ensures forall i :: 0 <= i < |r| ==> r[i].(product := rows[i].product) == rows[i]
  {
    seq(|rows|, i requires 0 <= i < |rows| => rows[i].(product := FixProduct(rows[i].product)))
  }

  // ---------------------------------------------------------------------------
  // Step 3: the quantity floor (line 25)

  /** `max(x, 1)`: quantities below 1, zero included, become 1. */
  function ClampQuantity(q: int): (r: int)
    ensures r >= 1
    ensures q >= 1 ==> r == q
    ensures q < 1 ==> r == 1
  {
    if q < 1 then 1 else q
  }

  /** The Quantity column after line 25; no other column changes. */
  function ClampQuantities(rows: seq<Order>): (r: seq<Order>)
    ensures |r| == |rows|
    ensures forall i :: 0 <= i < |r| ==> r[i].quantity == ClampQuantity(rows[i].quantity)
    ensures forall i :: 0 <= i < |r| ==> r[i].(quantity := rows[i].quantity) == rows[i]
  {
    seq(|rows|, i requires 0 <= i < |rows| => rows[i].(quantity := ClampQuantity(rows[i].quantity)))
  }

  // ---------------------------------------------------------------------------
  // Step 4: the price filter (line 28)

  /** `df[df["Price"] > 0]`: the rows with a positive price, in order (a zero price is dropped too). */
  function KeepPositivePrice(rows: seq<Order>): (r: seq<Order>)
    ensures |r| <= |rows|
    ensures forall i :: 0 <= i < |r| ==> r[i].price > 0.0 && r[i] in rows
  {
    if rows == [] then []
    else (if rows[0].price > 0.0 then [rows[0]] else []) + KeepPositivePrice(rows[1..])
  }

  /**
   * A row occurs in the filtered table exactly as often as in the input when
   * its price is positive, and not at all otherwise.
   */
  lemma {:induction false} KeepPositivePriceCount(rows: seq<Order>, o: Order)
    ensures multiset(KeepPositivePrice(rows))[o] == if o.price > 0.0 then multiset(rows)[o] else 0
  {
    if rows != [] {
      assert rows == [rows[0]] + rows[1..];
      KeepPositivePriceCount(rows[1..], o);
    }
  }

  /** The filter keeps row order: filtering a concatenation filters each part. */
  lemma {:induction false} KeepPositivePriceAppend(a: seq<Order>, b: seq<Order>)
    ensures KeepPositivePrice(a + b) == KeepPositivePrice(a) + KeepPositivePrice(b)
  {
    if a == [] {
      assert a + b == b;
    } else {
      assert (a + b)[0] == a[0];
      assert (a + b)[1..] == a[1..] + b;
      KeepPositivePriceAppend(a[1..], b);
    }
  }

  // ---------------------------------------------------------------------------
  // Step 5: the category canonical form (lines 34-36), over ASCII letters

  predicate IsUpperChar(c: char) { 'A' <= c <= 'Z' }
  predicate IsLowerChar(c: char) { 'a' <= c <= 'z' }

  function LowerChar(c: char): char {
    if IsUpperChar(c) then (c as int + 32) as char else c
  }

  function UpperChar(c: char): char {
    if IsLowerChar(c) then (c as int - 32) as char else c
  }

  /** `str.lower()`. */
  function Lower(s: string): (r: string)
    ensures |r| == |s|
    ensures forall i :: 0 <= i < |r| ==> !IsUpperChar(r[i]) && r[i] == LowerChar(s[i])
  {
    seq(|s|, i requires 0 <= i < |s| => LowerChar(s[i]))
  }

  /** `str.capitalize()`: the first character upper case, the rest lower case. */
  function Capitalize(s: string): (r: string)
    ensures |r| == |s|
    ensures |s| > 0 ==> r[0] == UpperChar(s[0])
    ensures forall i :: 1 <= i < |r| ==> r[i] == LowerChar(s[i])
  {
    if s == [] then [] else [UpperChar(s[0])] + Lower(s[1..])
  }

  /** The misspelling that line 35 repairs, and its repair. */
  const Misspelled: string := "eletronics"
  const Electronics: string := "electronics"

  /**
   * Lines 34-36 on one value: lower-case it, repair the misspelling, then
   * capitalise. The result spells the lower-cased input (repaired) again,
   * with an upper-case first letter and no other upper-case letter.
   */
  function CanonicalCategory(c: string): (r: string)
    ensures Lower(r) == if Lower(c) == Misspelled then Electronics else Lower(c)
    ensures |r| > 0 ==> !IsLowerChar(r[0])
    ensures forall i :: 1 <= i < |r| ==> !IsUpperChar(r[i])
  {
    var lowered := Lower(c);
    var repaired := if lowered == Misspelled then Electronics else lowered;
    LowerOfLower(repaired);
    Capitalize(repaired)
  }

  /** Lower-casing a string that has no upper-case letter changes nothing. */
  lemma LowerOfLower(s: string)
    requires forall i :: 0 <= i < |s| ==> !IsUpperChar(s[i])
    ensures Lower(s) == s
    ensures |s| > 0 ==> Lower(Capitalize(s)) == s
  {
    if |s| > 0 {
      assert Lower(Capitalize(s))[0] == s[0];
    }
  }

  /** The category form depends only on the lower-cased value: casing never matters. */
  lemma CanonicalCategoryIgnoresCase(a: string, b: string)
    requires Lower(a) == Lower(b)
    ensures CanonicalCategory(a) == CanonicalCategory(b)
  {
  }

  /** Every casing of "electronics" and of its misspelling ends as "Electronics". */
  lemma ElectronicsVariants(c: string)
    requires Lower(c) == Misspelled || Lower(c) == Electronics
    ensures CanonicalCategory(c) == "Electronics"
  {
    var repaired := if Lower(c) == Misspelled then Electronics else Lower(c);
    assert repaired == Electronics;
  }

  /** Applying the category rules to an already cleaned value changes nothing. */
  lemma CanonicalCategoryIdempotent(c: string)
    ensures CanonicalCategory(CanonicalCategory(c)) == CanonicalCategory(c)
  {
    var r := CanonicalCategory(c);
    var repaired := if Lower(c) == Misspelled then Electronics else Lower(c);
    LowerOfLower(repaired);
    assert Lower(r) == repaired;
    assert repaired != Misspelled;
  }

  /** The Category column after lines 34-36; no other column changes. */
  function CleanCategories(rows: seq<Order>): (r: seq<Order>)
    ensures |r| == |rows|
    ensures forall i :: 0 <= i < |r| ==> r[i].category == CanonicalCategory(rows[i].category)
    ensures forall i :: 0 <= i < |r| ==> r[i].(category := rows[i].category) == rows[i]
  {
    seq(|rows|, i requires 0 <= i < |rows| => rows[i].(category := CanonicalCategory(rows[i].category)))
  }

  // ---------------------------------------------------------------------------
  // Step 6: the IsPromo flag (line 49)

  /** `notna().astype(int)`: 1 when a promo code is present, 0 when it is missing. */
  function IsPromo(code: Option<string>): (flag: int)
    ensures flag == 0 || flag == 1
    ensures flag == 1 <==> code.Some?
  {
    if code.Some? then 1 else 0
  }

  /** The table with the IsPromo column added; the orders themselves are unchanged. */
  function AddPromoFlags(rows: seq<Order>): (r: seq<PromoOrder>)
    ensures |r| == |rows|
    ensures forall i :: 0 <= i < |r| ==> r[i].order == rows[i] && r[i].isPromo == IsPromo(rows[i].promoCode)
  {
    seq(|rows|, i requires 0 <= i < |rows| => PromoOrder(rows[i], IsPromo(rows[i].promoCode)))
  }

  // ---------------------------------------------------------------------------
  // The steps in the order of the script

  /**
   * Lines 18, 21, 25, 28, 34-36 and 49 in sequence. The region imputation of
   * lines 45-46 is not part of this model.
   */
  function Clean(rows: seq<Order>): (r: seq<PromoOrder>)
    ensures |r| <= |rows|
    ensures forall i :: 0 <= i < |r| ==> r[i].order.price > 0.0 && r[i].isPromo == IsPromo(r[i].order.promoCode)
  {
    AddPromoFlags(CleanCategories(KeepPositivePrice(ClampQuantities(FixProducts(DropDuplicates(rows))))))
  }


  /**
   * Every cleaned row meets all the cleaning rules at once: quantity at least 1,
   * a positive price, no "ProdA", a category already in canonical form, and an
   * IsPromo flag that matches its promo code.
   */
  lemma CleanRowsWellFormed(rows: seq<Order>)
    ensures |Clean(rows)| <= |rows|
    ensures forall i :: 0 <= i < |Clean(rows)| ==>
      var o := Clean(rows)[i].order;
      && o.quantity >= 1
      && o.price > 0.0
      && o.product != "ProdA"
      && CanonicalCategory(o.category) == o.category
      && (Clean(rows)[i].isPromo == 1 <==> o.promoCode.Some?)
  {
    var q := ClampQuantities(FixProducts(DropDuplicates(rows)));
    var filtered := KeepPositivePrice(q);
    forall i | 0 <= i < |filtered| ensures filtered[i].quantity >= 1 && filtered[i].product != "ProdA" {
      var j :| 0 <= j < |q| && q[j] == filtered[i];
    }
    forall i | 0 <= i < |Clean(rows)|
      ensures CanonicalCategory(Clean(rows)[i].order.category) == Clean(rows)[i].order.category
    {
      CanonicalCategoryIdempotent(filtered[i].category);
    }
  }

  /** The product and quantity rules on one row. */
  function Prepared(o: Order): Order {
    o.(product := FixProduct(o.product), quantity := ClampQuantity(o.quantity))
  }

  /** What the cleaning steps do to one row that survives the price filter. */
  function CleanRow(o: Order): PromoOrder {
    PromoOrder(Prepared(o).(category := CanonicalCategory(o.category)), IsPromo(o.promoCode))
  }

  /** The table that reaches the price filter: dropped duplicates, then lines 21 and 25. */
  lemma PreparedRows(rows: seq<Order>)
    ensures var d := DropDuplicates(rows);
      var q := ClampQuantities(FixProducts(d));
      |q| == |d| && forall j :: 0 <= j < |q| ==> q[j] == Prepared(d[j])
  {
  }

  /** Every cleaned row is the cleaned form of an input row with a positive price. */
  lemma CleanedRowsFromInput(rows: seq<Order>, i: nat)
    requires i < |Clean(rows)|
    ensures exists o :: o in rows && o.price > 0.0 && Clean(rows)[i] == CleanRow(o)
  {
    var d := DropDuplicates(rows);
    var q := ClampQuantities(FixProducts(d));
    var k := KeepPositivePrice(q);
    PreparedRows(rows);
    var j :| 0 <= j < |q| && q[j] == k[i];
    var o := d[j];
    assert k[i] == Prepared(o);
    assert Clean(rows)[i] == CleanRow(o);
  }

  /** Every input row with a positive price has its cleaned form in the cleaned table. */
  lemma InputRowsReachCleaned(rows: seq<Order>, o: Order)
    requires o in rows && o.price > 0.0
    ensures CleanRow(o) in Clean(rows)
  {
    var d := DropDuplicates(rows);
    var q := ClampQuantities(FixProducts(d));
    var k := KeepPositivePrice(q);
    PreparedRows(rows);
    var j :| 0 <= j < |d| && d[j] == o;
    KeepPositivePriceCount(q, q[j]);
    assert q[j] in multiset(q);
    assert q[j] in multiset(k);
    var i :| 0 <= i < |k| && k[i] == q[j];
    assert Clean(rows)[i] == CleanRow(o);
  }

  /**
   * The rows of the cleaned table are exactly the cleaned forms of the input
   * rows with a positive price.
   */
  lemma CleanedRowsComeFromInput(rows: seq<Order>)
    ensures forall x :: x in Clean(rows) <==> exists o :: o in rows && o.price > 0.0 && x == CleanRow(o)
  {
    forall x | x in Clean(rows) ensures exists o :: o in rows && o.price > 0.0 && x == CleanRow(o) {
      var i :| 0 <= i < |Clean(rows)| && Clean(rows)[i] == x;
      CleanedRowsFromInput(rows, i);
    }
    forall o | o in rows && o.price > 0.0 ensures CleanRow(o) in Clean(rows) {
      InputRowsReachCleaned(rows, o);
    }
  }

  /**
   * Because duplicates are dropped before the product, quantity and category
   * rules run, the cleaned table can still hold two equal rows: two orders that
   * differ only in "ProdA" against "Product A" both survive line 18 and are
   * equal after line 21.
   */
  lemma CleanedTableMayRepeatRows()
    ensures exists rows :: Distinct(rows) && !Distinct(Clean(rows))
  {
    var a := Order(1, "ProdA", "Home", 1, 10.0, None, None, "2024-01-01", 0);
    var b := a.(product := "Product A");
    var rows := [a, b];
    assert a.product != b.product;
    assert Distinct(rows);
    DedupOfDistinct(rows);
    var f := FixProducts(DropDuplicates(rows));
    assert f[0] == b && f[1] == b;
    var q := ClampQuantities(f);
    assert q[0] == b && q[1] == b;
    var k := KeepPositivePrice(q);
    assert q == [b, b];
    assert q[1..] == [b] && [b][1..] == [];
    assert KeepPositivePrice([b]) == [b];
    assert k == [b, b];
    assert Clean(rows)[0] == Clean(rows)[1];
  }
}
