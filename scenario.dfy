/** A session on the seed inventory: ship 45 copies of the first title, then
    try to ship 10 more than remain. */
module Scenario {
  import opened Tables
  import opened Posting
  import opened Reports

  const FirstTitle := "인하의 역사"

  /** The same session on the pure specification, with the low-stock view
      afterwards. */
  lemma SeedShipments()
    ensures HasTitle(SeedInventory(), FirstTitle)
    ensures var s0 := Snapshot(SeedInventory(), []);
            var t1 := Step(s0, Submission(Ship, "Bookstore A", FirstTitle, 45, "2024-03-05 10:00:00"));
            var t2 := Step(t1.next, Submission(Ship, "Bookstore A", FirstTitle, 10, "2024-03-05 10:05:00"));
            && t1.outcome == Posted(50, 5)
            && t1.next.history == [Record("2024-03-05 10:00:00", "Bookstore A", FirstTitle, Ship, 45, 15000)]
            && Alerts(t1.next.inventory) == t1.next.inventory
            && t2.outcome == Rejected(InsufficientStock(5, 10))
            && t2.next == t1.next
  {
    var rows := SeedInventory();
    assert Titles(rows)[0] == FirstTitle;
    assert FirstIndex(rows, FirstTitle) == 0;
    var s1 := Step(Snapshot(rows, []), Submission(Ship, "Bookstore A", FirstTitle, 45, "2024-03-05 10:00:00")).next;
    assert s1.inventory == [rows[0].(qty := 5), rows[1]];
    assert Titles(s1.inventory)[0] == FirstTitle;
    assert FirstIndex(s1.inventory, FirstTitle) == 0;
    assert s1.inventory[..1] == [rows[0].(qty := 5)];
    assert s1.inventory[..1][..0] == [];
    assert Alerts(s1.inventory[..1]) == [s1.inventory[0]];
    assert s1.inventory[..|s1.inventory| - 1] == s1.inventory[..1];
  }

  /** With a header-only inventory the form offers no title; a submission
      without a client is still refused for the missing client. */
  lemma EmptyInventoryMissingClient(kind: Kind, quantity: int, timestamp: string)
    requires quantity >= 1
    ensures var t := Step(Snapshot([], []), Submission(kind, "", "", quantity, timestamp));
            t.outcome == Rejected(MissingClient) && t.next == Snapshot([], [])
  {
  }

  /** The same session run against a `Ledger`. */
  method SeedSession() returns (first: Outcome, second: Outcome, alerts: seq<Book>)
    ensures first == Posted(50, 5)
    ensures second == Rejected(InsufficientStock(5, 10))
    ensures |alerts| == 2 && alerts[0].title == FirstTitle && alerts[0].qty == 5
  {
    var rows := SeedInventory();
    var ledger := new Ledger(rows, []);
    assert Titles(rows)[0] == FirstTitle;
    assert FirstIndex(rows, FirstTitle) == 0;
    first := ledger.Post(Ship, "Bookstore A", FirstTitle, 45, "2024-03-05 10:00:00");
    assert ledger.inventory[..] == [rows[0].(qty := 5), rows[1]];
    assert Titles(ledger.inventory[..])[0] == FirstTitle;
    second := ledger.Post(Ship, "Bookstore A", FirstTitle, 10, "2024-03-05 10:05:00");
    var after := ledger.inventory[..];
    assert after == [rows[0].(qty := 5), rows[1]];
    alerts := LowStockAlerts(after);
    assert after[..1][..0] == [];
    assert Alerts(after[..1]) == [after[0]];
    assert after[..|after| - 1] == after[..1];
  }
}
