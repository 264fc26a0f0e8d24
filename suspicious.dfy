/**
 * The "suspicious order" flag of Assignment3.py (lines 167-170): an order is
 * suspicious when it was returned, is worth more than 500, and its customer's
 * return flags over the whole table add up to more than 2.
 */
module SuspiciousOrders {
  import opened OrderCleaning

  /** The price above which a returned order can be suspicious. */
  const HighValue: real := 500.0

  /** Every ReturnFlag of the table is 0 or 1. */
  predicate BinaryReturnFlags(rows: seq<Order>) {
    forall i :: 0 <= i < |rows| ==> rows[i].returnFlag == 0 || rows[i].returnFlag == 1
  }

  /** The number of rows of customer `cid` whose ReturnFlag is 1. */
  function ReturnedOrders(rows: seq<Order>, cid: int): nat {
    if rows == [] then 0
    else (if rows[0].customerId == cid && rows[0].returnFlag == 1 then 1 else 0) + ReturnedOrders(rows[1..], cid)
  }

  /**
   * `df[df["CustomerID"] == cid]["ReturnFlag"].sum()`. With 0/1 flags it is the
   * number of that customer's returned orders.
   */
  function CustomerReturns(rows: seq<Order>, cid: int): (sum: int)
    ensures BinaryReturnFlags(rows) ==> sum == ReturnedOrders(rows, cid)
  {
    if rows == [] then 0
    else
      assert BinaryReturnFlags(rows) ==> BinaryReturnFlags(rows[1..]) by {
        assert forall i :: 0 <= i < |rows[1..]| ==> rows[1..][i] == rows[i + 1];
      }
      (if rows[0].customerId == cid then rows[0].returnFlag else 0) + CustomerReturns(rows[1..], cid)
  }

  /**
   * `is_suspicious(order)` evaluated against the table `rows`. With 0/1 flags,
   * an order is suspicious exactly when it was returned, is worth more than
   * 500, and its customer has at least three returned orders in the table.
   */
  predicate IsSuspicious(rows: seq<Order>, o: Order)
    ensures BinaryReturnFlags(rows) ==>
      (IsSuspicious(rows, o) <==> o.returnFlag == 1 && o.price > HighValue && ReturnedOrders(rows, o.customerId) >= 3)
  {
    o.returnFlag == 1 && o.price > HighValue && CustomerReturns(rows, o.customerId) > 2
  }

  /**
   * `df.apply(is_suspicious, axis=1)`: the SuspiciousOrder column, one flag per
   * row, each row judged against the whole table.
   */
  function FlagSuspicious(rows: seq<Order>): (flags: seq<bool>)
    ensures |flags| == |rows|
    ensures forall i :: 0 <= i < |rows| ==>
      (flags[i] <==> rows[i].returnFlag == 1 && rows[i].price > HighValue && CustomerReturns(rows, rows[i].customerId) > 2)
  {
    seq(|rows|, i requires 0 <= i < |rows| => IsSuspicious(rows, rows[i]))
  }

  /** A customer's flag sum over two tables one after the other is the sum of the two. */
  lemma {:induction false} CustomerReturnsAppend(a: seq<Order>, b: seq<Order>, cid: int)
    ensures CustomerReturns(a + b, cid) == CustomerReturns(a, cid) + CustomerReturns(b, cid)
  {
    if a == [] {
      assert a + b == b;
    } else {
      assert (a + b)[0] == a[0];
      assert (a + b)[1..] == a[1..] + b;
      CustomerReturnsAppend(a[1..], b, cid);
    }
  }

  /** Taking row k out of a table takes its contribution out of every flag sum. */
  lemma CustomerReturnsRemove(b: seq<Order>, k: nat, cid: int)
    requires k < |b|
    ensures CustomerReturns(b, cid) == CustomerReturns([b[k]], cid) + CustomerReturns(b[..k] + b[k + 1..], cid)
  {
    assert b == (b[..k] + [b[k]]) + b[k + 1..];
    CustomerReturnsAppend(b[..k] + [b[k]], b[k + 1..], cid);
    CustomerReturnsAppend(b[..k], [b[k]], cid);
    CustomerReturnsAppend(b[..k], b[k + 1..], cid);
  }

  /** Two tables with the same rows still have the same rows once the first row of one is taken out of both. */
  lemma SameRowsAfterRemoval(a: seq<Order>, b: seq<Order>, k: nat)
    requires multiset(a) == multiset(b)
    requires a != [] && k < |b| && b[k] == a[0]
    ensures multiset(a[1..]) == multiset(b[..k] + b[k + 1..])
  {
    assert b == b[..k] + [b[k]] + b[k + 1..];
    assert a == [a[0]] + a[1..];
    assert multiset(b[..k] + b[k + 1..]) == multiset(b) - multiset{a[0]};
  }

  /** A customer's flag sum does not depend on the order of the rows. */
  lemma {:induction false} CustomerReturnsPermutation(a: seq<Order>, b: seq<Order>, cid: int)
    requires multiset(a) == multiset(b)
    ensures CustomerReturns(a, cid) == CustomerReturns(b, cid)
    decreases |a|
  {
    if a == [] {
      assert |b| == |multiset(b)| == 0;
    } else {
      assert a[0] in multiset(b);
      var k :| 0 <= k < |b| && b[k] == a[0];
      SameRowsAfterRemoval(a, b, k);
      CustomerReturnsPermutation(a[1..], b[..k] + b[k + 1..], cid);
      CustomerReturnsRemove(b, k, cid);
      assert [b[k]][1..] == [];
    }
  }

  /**
   * Whether an order is suspicious does not depend on the order of the rows,
   * so the sort by customer and date that precedes line 170 does not change it.
   */
  lemma SuspiciousIgnoresRowOrder(a: seq<Order>, b: seq<Order>, o: Order)
    requires multiset(a) == multiset(b)
    ensures IsSuspicious(a, o) <==> IsSuspicious(b, o)
  {
    CustomerReturnsPermutation(a, b, o.customerId);
  }
}
