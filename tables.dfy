/** The two tables the publishing office keeps in memory: the inventory
    (one row per title) and the transaction history (newest record first). */
module Tables {

  /** The three transaction kinds of the posting form: receiving stock,
      shipping it to a client, and taking a return back. */
  datatype Kind = Receive | Ship | Return

  /** A row of the inventory table: title, unit price, ISBN, the quantity
      on hand and the safety-stock threshold. */
  datatype Book = Book(title: string, price: int, isbn: string, qty: int, safety: int)

  /** A row of the transaction history. `price` is the book's unit price
      copied at posting time. */
  datatype Record = Record(timestamp: string, client: string, title: string,
                           kind: Kind, quantity: int, price: int)

  /** The titles of the inventory, in table order. */
  function Titles(rows: seq<Book>): (ts: seq<string>)
    ensures |ts| == |rows|
    ensures forall i :: 0 <= i < |rows| ==> ts[i] == rows[i].title
  {
    seq(|rows|, i requires 0 <= i < |rows| => rows[i].title)
  }

  predicate HasTitle(rows: seq<Book>, title: string) {
    title in Titles(rows)
  }

  /** The position of the FIRST row whose title matches: the table does not
      enforce unique titles, and a lookup takes the first hit. */
  function FirstIndex(rows: seq<Book>, title: string): (i: nat)
    requires HasTitle(rows, title)
    ensures i < |rows| && rows[i].title == title
    ensures forall j :: 0 <= j < i ==> rows[j].title != title
  {
    if rows[0].title == title then 0
    else
      assert Titles(rows)[1..] == Titles(rows[1..]);
      1 + FirstIndex(rows[1..], title)
  }

  /** The lookup depends on the titles alone: rows whose other columns
      change leave it where it was. */
  lemma FirstIndexByTitles(rows: seq<Book>, rows': seq<Book>, title: string)
    requires HasTitle(rows, title)
    requires Titles(rows') == Titles(rows)
    ensures HasTitle(rows', title)
    ensures FirstIndex(rows', title) == FirstIndex(rows, title)
  {
    var i, i' := FirstIndex(rows, title), FirstIndex(rows', title);
    assert rows'[i].title == Titles(rows')[i] == Titles(rows)[i] == title;
    assert rows[i'].title == Titles(rows)[i'] == Titles(rows')[i'] == title;
  }

  /** The quantity on hand that a lookup by title reports. */
  function OnHand(rows: seq<Book>, title: string): int
    requires HasTitle(rows, title)
  {
    rows[FirstIndex(rows, title)].qty
  }

  predicate NonNegative(rows: seq<Book>) {
    forall i :: 0 <= i < |rows| ==> rows[i].qty >= 0
  }

  /** The sum of a column of integers. */
  function Sum(xs: seq<int>): int {
    if xs == [] then 0 else xs[0] + Sum(xs[1..])
  }

  lemma {:induction false} SumConcat(xs: seq<int>, ys: seq<int>)
    ensures Sum(xs + ys) == Sum(xs) + Sum(ys)
  {
    if xs == [] {
      assert xs + ys == ys;
    } else {
      assert (xs + ys)[1..] == xs[1..] + ys;
      SumConcat(xs[1..], ys);
    }
  }

  /** The rows a fresh installation starts with when no stored table exists. */
  function SeedInventory(): (rows: seq<Book>)
    ensures |rows| == 2 && NonNegative(rows)
  {
    [ Book("인하의 역사", 15000, "979-11-87", 50, 10),
      Book("파이썬 정복", 25000, "979-11-99", 5, 10) ]
  }
}
