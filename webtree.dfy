/**
 * The Web_TREE column of Assignment4_Webtree.py: a table from brand id to the
 * list of parent-category ids seen so far for that brand, extended by one id
 * per row, each row receiving the underscore-joined list of its brand.
 */
module WebTree {

  /** One input row: its BRAND_ID and its PARENT_CATEGORY_ID. */
  datatype Row<B> = Row(brand: B, parentCategory: string)

  /** The separator that joins the ids of one brand. */
  const Separator: char := '_'

  /**
   * Python's `"_".join(parts)`: the result starts with the first id, followed
   * by a separator when there are more.
   */
  function Join(parts: seq<string>): (s: string)
    ensures |parts| == 0 ==> s == ""
    ensures |parts| > 0 ==> parts[0] <= s
    ensures |parts| > 1 ==> |s| > |parts[0]| && s[|parts[0]|] == Separator
  {
    if |parts| == 0 then ""
    else if |parts| == 1 then parts[0]
    else parts[0] + [Separator] + Join(parts[1..])
  }

  /** The index of the first separator in `s`. */
  function SeparatorIndex(s: string): (k: nat)
    requires Separator in s
    ensures k < |s| && s[k] == Separator && Separator !in s[..k]
  {
    if s[0] == Separator then 0
    else
      var k' := SeparatorIndex(s[1..]);
      assert s[..k' + 1] == [s[0]] + s[1..][..k'];
      k' + 1
  }

  /** Python's `s.split("_")`: the pieces between separators, empty ones included. */
  function Split(s: string): (pieces: seq<string>)
    ensures |pieces| > 0
    decreases |s|
  {
    if Separator !in s then [s]
    else
      var k := SeparatorIndex(s);
      [s[..k]] + Split(s[k + 1..])
  }

  /** The list a table holds for `b`; an absent brand has the empty list. */
  function Lookup<B>(table: map<B, seq<string>>, b: B): seq<string> {
    if b in table then table[b] else []
  }

  /** The parent-category ids of the rows of brand `b`, in row order. */
  function History<B(==)>(rows: seq<Row<B>>, b: B): seq<string> {
    if rows == [] then []
    else
      var last := rows[|rows| - 1];
      History(rows[..|rows| - 1], b) + (if last.brand == b then [last.parentCategory] else [])
  }

  /** The brand ids that occur in `rows`. */
  function Brands<B>(rows: seq<Row<B>>): set<B> {
    set i | 0 <= i < |rows| :: rows[i].brand
  }

  /** Joining one more id onto a non-empty list extends the joined string by `_` and that id. */
  lemma {:induction false} JoinSnoc(parts: seq<string>, id: string)
    requires |parts| > 0
    ensures Join(parts + [id]) == Join(parts) + [Separator] + id
  {
    if |parts| > 1 {
      assert (parts + [id])[1..] == parts[1..] + [id];
      JoinSnoc(parts[1..], id);
    }
  }

  /** When no id contains `_`, splitting the joined string gives the ids back. */
  lemma {:induction false} SplitJoin(parts: seq<string>)
    requires |parts| > 0
    requires forall i :: 0 <= i < |parts| ==> Separator !in parts[i]
    ensures Split(Join(parts)) == parts
  {
    if |parts| > 1 {
      var s := Join(parts);
      var head := parts[0];
      var tail := Join(parts[1..]);
      assert s == head + [Separator] + tail;
      assert s[|head|] == Separator;
      assert s[..|head|] == head;
      assert SeparatorIndex(s) == |head|;
      assert s[|head| + 1..] == tail;
      SplitJoin(parts[1..]);
    }
  }

  /** Replaying the rows of brand `b` over a prefix and one more row. */
  lemma HistorySnoc<B>(rows: seq<Row<B>>, i: nat, b: B)
    requires i < |rows|
    ensures History(rows[..i + 1], b)
         == History(rows[..i], b) + (if rows[i].brand == b then [rows[i].parentCategory] else [])
  {
    assert rows[..i + 1][..i] == rows[..i];
  }

  /** The brands of a prefix and one more row. */
  lemma BrandsSnoc<B>(rows: seq<Row<B>>, i: nat)
    requires i < |rows|
    ensures Brands(rows[..i + 1]) == Brands(rows[..i]) + {rows[i].brand}
  {
    assert forall k :: 0 <= k < i ==> rows[..i + 1][k] == rows[..i][k];
    assert rows[..i + 1][i] == rows[i];
  }

  /** The table after `generate_web_tree` has been called on every row of `rows`, in order. */
  function Replay<B(==)>(table: map<B, seq<string>>, rows: seq<Row<B>>): map<B, seq<string>> {
    if rows == [] then table
    else
      var t := Replay(table, rows[..|rows| - 1]);
      var last := rows[|rows| - 1];
      t[last.brand := Lookup(t, last.brand) + [last.parentCategory]]
  }

  /** Replaying a prefix and one more row. */
  lemma ReplaySnoc<B>(table: map<B, seq<string>>, rows: seq<Row<B>>, i: nat)
    requires i < |rows|
    ensures var t := Replay(table, rows[..i]);
      Replay(table, rows[..i + 1]) == t[rows[i].brand := Lookup(t, rows[i].brand) + [rows[i].parentCategory]]
  {
    assert rows[..i + 1][..i] == rows[..i];
  }

  /**
   * After the rows are replayed, each brand's list is its list before,
   * followed by the ids of that brand's rows in row order.
   */
  lemma {:induction false} ReplayLookup<B>(table: map<B, seq<string>>, rows: seq<Row<B>>, b: B)
    ensures Lookup(Replay(table, rows), b) == Lookup(table, b) + History(rows, b)
  {
    if rows != [] {
      ReplayLookup(table, rows[..|rows| - 1], b);
    }
  }

  /** Replaying rows never removes a brand and adds exactly the brands of the rows. */
  lemma {:induction false} ReplayKeys<B>(table: map<B, seq<string>>, rows: seq<Row<B>>)
    ensures Replay(table, rows).Keys == table.Keys + Brands(rows)
  {
    if rows != [] {
      var n := |rows|;
      ReplayKeys(table, rows[..n - 1]);
      BrandsSnoc(rows, n - 1);
      assert rows[..n] == rows;
    }
  }

  /** The strings returned by the calls of `generate_web_tree` on `rows`, in order, one per row. */
  function Column<B(==)>(table: map<B, seq<string>>, rows: seq<Row<B>>): (column: seq<string>)
    ensures |column| == |rows|
  {
    if rows == [] then []
    else Column(table, rows[..|rows| - 1]) + [Join(Lookup(Replay(table, rows), rows[|rows| - 1].brand))]
  }

  /** A row's entry of the column is already fixed once that row has been replayed. */
  lemma {:induction false} ColumnOfPrefix<B>(table: map<B, seq<string>>, rows: seq<Row<B>>, i: nat)
    requires i < |rows|
    ensures Column(table, rows)[i] == Column(table, rows[..i + 1])[i]
    decreases |rows|
  {
    var n := |rows|;
    if i < n - 1 {
      ColumnOfPrefix(table, rows[..n - 1], i);
      assert rows[..n - 1][..i + 1] == rows[..i + 1];
    } else {
      assert rows[..i + 1] == rows;
    }
  }

  /**
   * Row i's entry of the column is the join of its brand's list right after
   * row i: the list before followed by the ids of that brand's rows 0..i.
   */
  lemma ColumnAt<B>(table: map<B, seq<string>>, rows: seq<Row<B>>, i: nat)
    requires i < |rows|
    ensures Column(table, rows)[i]
         == Join(Lookup(table, rows[i].brand) + History(rows[..i + 1], rows[i].brand))
  {
    ColumnOfPrefix(table, rows, i);
    var prefix := rows[..i + 1];
    assert prefix[|prefix| - 1] == rows[i];
    assert Column(table, prefix)[i] == Join(Lookup(Replay(table, prefix), rows[i].brand));
    ReplayLookup(table, prefix, rows[i].brand);
  }

  /**
   * The module-level dictionary `web_tree_dict` of Assignment4_Webtree.py, with
   * `generate_web_tree` as a method that updates it in place.
   */
  class BrandTable<B(==)> {
    var trees: map<B, seq<string>>

    /** Every list in the table holds at least one id: lists are only created by an append. */
    ghost predicate Valid()
      reads this
    {
      forall b :: b in trees ==> |trees[b]| > 0
    }

    /** `web_tree_dict = {}` */
    constructor ()
      ensures Valid() && trees == map[]
    {
      trees := map[];
    }

    /**
     * `generate_web_tree(brand_id, parent_category_id)`: appends the id to the
     * brand's list, creating the list for a brand not yet seen, and returns the
     * underscore-joined list.
     */
    method Generate(brand: B, parentCategory: string) returns (tree: string)
      requires Valid()
      modifies this
      ensures Valid()
      ensures trees == old(trees)[brand := Lookup(old(trees), brand) + [parentCategory]]
      ensures tree == Join(trees[brand])
      ensures brand !in old(trees) ==> tree == parentCategory
      ensures brand in old(trees) ==> tree == Join(old(trees)[brand]) + [Separator] + parentCategory
    {
      if brand !in trees {
        trees := trees[brand := []];
      }
      var list := trees[brand] + [parentCategory];
      trees := trees[brand := list];
      tree := Join(list);
      if brand in old(trees) {
        JoinSnoc(old(trees)[brand], parentCategory);
      }
    }

    /**
     * `df.apply(lambda row: generate_web_tree(...), axis=1)`: calls Generate on
     * every row in order and collects the returned strings as a column.
     */
    method ApplyRows(rows: seq<Row<B>>) returns (column: seq<string>)
      requires Valid()
      modifies this
      ensures Valid()
      ensures trees == Replay(old(trees), rows)
      ensures column == Column(old(trees), rows)
    {
      column := [];
      var i := 0;
      while i < |rows|
        invariant 0 <= i <= |rows|
        invariant Valid()
        invariant trees == Replay(old(trees), rows[..i])
        invariant |column| == i
        invariant column == Column(old(trees), rows[..i])
      {
        var tree := Generate(rows[i].brand, rows[i].parentCategory);
        ReplaySnoc(old(trees), rows, i);
        assert rows[..i + 1][..i] == rows[..i];
        column := column + [tree];
        i := i + 1;
      }
      assert rows[..i] == rows;
    }
  }

  /**
   * The Web_TREE column produced by the script: a fresh empty table, then every
   * row in order. Row i receives the join of the PARENT_CATEGORY_IDs of all rows
   * 0..i that share its BRAND_ID, in row order.
   */
  method WebTreeColumn<B(==)>(rows: seq<Row<B>>) returns (column: seq<string>)
    ensures |column| == |rows|
    ensures forall i :: 0 <= i < |rows| ==> column[i] == Join(History(rows[..i + 1], rows[i].brand))
  {
    var table := new BrandTable<B>();
    column := table.ApplyRows(rows);
    forall i | 0 <= i < |rows| ensures column[i] == Join(History(rows[..i + 1], rows[i].brand)) {
      var h := History(rows[..i + 1], rows[i].brand);
      ColumnAt(map[], rows, i);
      assert Lookup(map[], rows[i].brand) + h == h;
    }
  }

  /** Row i's own id is the last one in its brand's history up to row i. */
  lemma HistoryEndsWithOwnId<B>(rows: seq<Row<B>>, i: nat)
    requires i < |rows|
    ensures var h := History(rows[..i + 1], rows[i].brand);
      |h| > 0 && h[|h| - 1] == rows[i].parentCategory
  {
    HistorySnoc(rows, i, rows[i].brand);
  }

  /** Rows of other brands leave a brand's history as it was. */
  lemma {:induction false} HistoryUnchangedOver<B>(rows: seq<Row<B>>, m: nat, i: nat, b: B)
    requires m <= i <= |rows|
    requires forall k :: m <= k < i ==> rows[k].brand != b
    ensures History(rows[..i], b) == History(rows[..m], b)
  {
    if i > m {
      HistorySnoc(rows, i - 1, b);
      HistoryUnchangedOver(rows, m, i - 1, b);
    }
  }

  /** The Web_TREE value of the first row of a brand is that row's own id. */
  lemma WebTreeOfFirstRow<B>(rows: seq<Row<B>>, i: nat)
    requires i < |rows|
    requires forall k :: 0 <= k < i ==> rows[k].brand != rows[i].brand
    ensures Join(History(rows[..i + 1], rows[i].brand)) == rows[i].parentCategory
  {
    HistoryUnchangedOver(rows, 0, i, rows[i].brand);
    HistorySnoc(rows, i, rows[i].brand);
  }

  /**
   * The Web_TREE value of a later row of a brand is the value of that brand's
   * previous row, an underscore, and the row's own id.
   */
  lemma WebTreeExtendsPrevious<B>(rows: seq<Row<B>>, j: nat, i: nat)
    requires j < i < |rows|
    requires rows[j].brand == rows[i].brand
    requires forall k :: j < k < i ==> rows[k].brand != rows[i].brand
    ensures Join(History(rows[..i + 1], rows[i].brand))
         == Join(History(rows[..j + 1], rows[j].brand)) + [Separator] + rows[i].parentCategory
  {
    var b := rows[i].brand;
    HistoryUnchangedOver(rows, j + 1, i, b);
    HistorySnoc(rows, i, b);
    HistoryEndsWithOwnId(rows, j);
    JoinSnoc(History(rows[..j + 1], b), rows[i].parentCategory);
  }
}
