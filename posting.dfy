/** Posting a receive, ship or return against the inventory: the pure
    specification of one step, the in-place `Ledger` that performs it, and
    what any sequence of postings does to a title's stock. */
module Posting {
  import opened Tables
  import opened Aggregates

  datatype Option<T> = None | Some(value: T)

  /** Why a submitted posting was turned away without touching either table. */
  datatype Rejection = MissingClient | InsufficientStock(onHand: int, requested: int)

  /** What the form reports back: the quantity before and after, or the reason
      for refusing. */
  datatype Outcome = Posted(before: int, after: int) | Rejected(reason: Rejection)

  /** One submission of the posting form; `timestamp` is the wall-clock time
      formatted as `YYYY-MM-DD HH:MM:SS`. */
  datatype Submission = Submission(kind: Kind, client: string, title: string, quantity: int, timestamp: string)

  datatype Snapshot = Snapshot(inventory: seq<Book>, history: seq<Record>)

  datatype Transition = Transition(next: Snapshot, outcome: Outcome)

  /** What the form itself guarantees: the quantity input has a minimum of 1,
      and the title is picked from the inventory's titles. The empty-client
      check comes before the lookup, so a submission without a client is
      answered even when the inventory offers no title. */
  predicate Admissible(rows: seq<Book>, p: Submission) {
    (p.client == "" || HasTitle(rows, p.title)) && p.quantity >= 1
  }

  /** How a posting of `kind` moves the stock: receipts and returns add, shipments subtract. */
  function Signed(kind: Kind, quantity: int): int {
    if kind == Ship then -quantity else quantity
  }

  /** The new quantity on hand, or None when a shipment asks for more than is there. */
  function Settle(kind: Kind, current: int, quantity: int): (r: Option<int>)
    ensures r.None? <==> kind == Ship && current < quantity
    ensures r.Some? ==> r.value == current + Signed(kind, quantity)
    ensures r.Some? && kind == Ship ==> r.value >= 0
  {
    match kind
    case Receive => Some(current + quantity)
    case Ship => if current < quantity then None else Some(current - quantity)
    case Return => Some(current + quantity)
  }

  /** The history record a successful posting prepends. */
  function Entry(p: Submission, price: int): Record {
    Record(p.timestamp, p.client, p.title, p.kind, p.quantity, price)
  }

  /** One posting applied to a snapshot of both tables. */
  function Step(s: Snapshot, p: Submission): (r: Transition)
    requires Admissible(s.inventory, p)
    ensures r.outcome == Rejected(MissingClient) <==> p.client == ""
    ensures r.outcome.Rejected? <==>
              p.client == "" || (p.kind == Ship && OnHand(s.inventory, p.title) < p.quantity)
    ensures r.outcome.Rejected? ==> r.next == s
    ensures Titles(r.next.inventory) == Titles(s.inventory)
    ensures NonNegative(s.inventory) ==> NonNegative(r.next.inventory)
    ensures r.outcome.Posted? && p.kind == Ship ==> r.outcome.after >= 0
    ensures r.outcome.Posted? ==>
              p.client != "" &&
              var i := FirstIndex(s.inventory, p.title);
              && r.outcome.before == s.inventory[i].qty
              && r.outcome.after == r.outcome.before + Signed(p.kind, p.quantity)
              && r.next.inventory == s.inventory[i := s.inventory[i].(qty := r.outcome.after)]
              && r.next.history == [Entry(p, s.inventory[i].price)] + s.history
  {
    if p.client == "" then Transition(s, Rejected(MissingClient))
    else
      var i := FirstIndex(s.inventory, p.title);
      var row := s.inventory[i];
      match Settle(p.kind, row.qty, p.quantity)
      case None => Transition(s, Rejected(InsufficientStock(row.qty, p.quantity)))
      case Some(q) =>
        Transition(Snapshot(s.inventory[i := row.(qty := q)], [Entry(p, row.price)] + s.history),
                   Posted(row.qty, q))
  }

  /** The session's two tables. The inventory rows are a fixed table whose
      quantity cells are overwritten; the history is rebound to a longer
      list on every successful posting. */
  class Ledger {
    var inventory: array<Book>
    var history: seq<Record>

    function Current(): Snapshot
      reads this, inventory
    {
      Snapshot(inventory[..], history)
    }

    constructor (rows: seq<Book>, records: seq<Record>)
      ensures fresh(inventory)
      ensures Current() == Snapshot(rows, records)
    {
      inventory := new Book[|rows|](i requires 0 <= i < |rows| => rows[i]);
      history := records;
    }

    /** Submit the posting form. */
    method Post(kind: Kind, client: string, title: string, quantity: int, timestamp: string)
      returns (outcome: Outcome)
      requires client == "" || HasTitle(inventory[..], title)
      requires quantity >= 1
      modifies this, inventory
      ensures inventory == old(inventory)
      ensures Transition(Current(), outcome)
              == Step(old(Current()), Submission(kind, client, title, quantity, timestamp))
      ensures outcome == Rejected(MissingClient) <==> client == ""
      ensures outcome.Rejected? ==> inventory[..] == old(inventory[..]) && history == old(history)
      ensures outcome.Posted? && kind == Ship ==> outcome.after >= 0
      ensures outcome.Posted? ==>
                client != "" &&
                var i := FirstIndex(old(inventory[..]), title);
                && (forall j :: 0 <= j < inventory.Length && j != i ==> inventory[j] == old(inventory[j]))
                && inventory[i] == old(inventory[i]).(qty := outcome.after)
                && |history| == |old(history)| + 1 && history[1..] == old(history)
                && history[0] == Record(timestamp, client, title, kind, quantity, old(inventory[i]).price)
    {
      if client == "" {
        return Rejected(MissingClient);
      }
      var i := FirstIndex(inventory[..], title);
      var current := inventory[i].qty;
      var price := inventory[i].price;
      var newQty := current;
      match kind {
        case Receive =>
          newQty := newQty + quantity;
        case Ship =>
          if current < quantity {
            return Rejected(InsufficientStock(current, quantity));
          }
          newQty := newQty - quantity;
        case Return =>
          newQty := newQty + quantity;
      }
      inventory[i] := inventory[i].(qty := newQty);
      history := [Record(timestamp, client, title, kind, quantity, price)] + history;
      outcome := Posted(current, newQty);
    }
  }

  /** The postings applied one after another, oldest first. Every one must be
      admissible for the starting inventory; the titles never change, so it
      stays admissible at its turn. */
  function Replay(s: Snapshot, ps: seq<Submission>): (r: Snapshot)
    requires forall p :: p in ps ==> Admissible(s.inventory, p)
    ensures Titles(r.inventory) == Titles(s.inventory)
    decreases |ps|
  {
    if ps == [] then s
    else
      AdmissibleAfterStep(s, ps);
      Replay(Step(s, ps[0]).next, ps[1..])
  }

  /** Whether every posting of the sequence goes through. */
  predicate AllPosted(s: Snapshot, ps: seq<Submission>)
    requires forall p :: p in ps ==> Admissible(s.inventory, p)
    decreases |ps|
  {
    if ps == [] then true
    else
      AdmissibleAfterStep(s, ps);
      Step(s, ps[0]).outcome.Posted? && AllPosted(Step(s, ps[0]).next, ps[1..])
  }

  /** The net movement the records put on one title: receipts plus returns minus shipments. */
  function Net(recs: seq<Record>, title: string): int {
    var mine := Where(recs, TitleOf, title);
    QtyTotal(Where(mine, KindOf, Receive)) + QtyTotal(Where(mine, KindOf, Return))
      - QtyTotal(Where(mine, KindOf, Ship))
  }

  lemma NetConcat(a: seq<Record>, b: seq<Record>, title: string)
    ensures Net(a + b, title) == Net(a, title) + Net(b, title)
  {
    WhereConcat(a, b, TitleOf, title);
    var ma, mb := Where(a, TitleOf, title), Where(b, TitleOf, title);
    forall k: Kind ensures QtyTotal(Where(ma + mb, KindOf, k))
                        == QtyTotal(Where(ma, KindOf, k)) + QtyTotal(Where(mb, KindOf, k)) {
      WhereConcat(ma, mb, KindOf, k);
      QtyTotalConcat(Where(ma, KindOf, k), Where(mb, KindOf, k));
    }
  }

  /** The records `later` holds in front of `earlier`. */
  function NewRecords(later: seq<Record>, earlier: seq<Record>): seq<Record>
    requires |earlier| <= |later|
  {
    later[..|later| - |earlier|]
  }

  /** One posting moves the stock of its own title by exactly the net of the
      record it adds, and leaves every other title's stock alone. */
  lemma StepNet(s: Snapshot, p: Submission, title: string)
    requires Admissible(s.inventory, p) && HasTitle(s.inventory, title)
    ensures var r := Step(s, p);
            && HasTitle(r.next.inventory, title)
            && |r.next.history| == |s.history| + (if r.outcome.Posted? then 1 else 0)
            && r.next.history == NewRecords(r.next.history, s.history) + s.history
            && OnHand(r.next.inventory, title)
               == OnHand(s.inventory, title) + Net(NewRecords(r.next.history, s.history), title)
  {
    var r := Step(s, p);
    FirstIndexByTitles(s.inventory, r.next.inventory, title);
    if r.outcome.Posted? {
      var e := r.next.history[0];
      assert NewRecords(r.next.history, s.history) == [e];
      assert Where([e], TitleOf, title) == if p.title == title then [e] else [];
      if p.title != title {
        assert FirstIndex(s.inventory, title) != FirstIndex(s.inventory, p.title);
      }
    } else {
      assert NewRecords(r.next.history, s.history) == [];
    }
  }

  /** Over ANY sequence of postings the history only grows at the front, and
      each title's stock equals its starting stock plus the receipts and
      returns minus the shipments recorded in the new part of the history.
      Rejected postings add no record and move no stock. */
  lemma {:induction false} ReplayNet(s: Snapshot, ps: seq<Submission>, title: string)
    requires forall p :: p in ps ==> Admissible(s.inventory, p)
    requires HasTitle(s.inventory, title)
    ensures var r := Replay(s, ps);
            && HasTitle(r.inventory, title)
            && |s.history| <= |r.history| <= |s.history| + |ps|
            && r.history == NewRecords(r.history, s.history) + s.history
            && OnHand(r.inventory, title)
               == OnHand(s.inventory, title) + Net(NewRecords(r.history, s.history), title)
    decreases |ps|
  {
    if ps == [] {
      assert NewRecords(s.history, s.history) == [];
    } else {
      var s1 := Step(s, ps[0]).next;
      StepNet(s, ps[0], title);
      AdmissibleAfterStep(s, ps);
      ReplayNet(s1, ps[1..], title);
      assert Replay(s, ps) == Replay(s1, ps[1..]);
      var s2 := Replay(s1, ps[1..]);
      ChainNet(s.history, s1.history, s2.history,
               OnHand(s.inventory, title), OnHand(s1.inventory, title), OnHand(s2.inventory, title), title);
    }
  }

  /** Two stretches of postings compose: the records each puts in front of
      the history concatenate, and the stock moves they account for add up. */
  lemma ChainNet(h0: seq<Record>, h1: seq<Record>, h2: seq<Record>, q0: int, q1: int, q2: int, title: string)
    requires |h0| <= |h1| <= |h2|
    requires h1 == NewRecords(h1, h0) + h0
    requires h2 == NewRecords(h2, h1) + h1
    requires q1 == q0 + Net(NewRecords(h1, h0), title)
    requires q2 == q1 + Net(NewRecords(h2, h1), title)
    ensures h2 == NewRecords(h2, h0) + h0
    ensures q2 == q0 + Net(NewRecords(h2, h0), title)
  {
    ChainRecords(h0, h1, h2);
    NetConcat(NewRecords(h2, h1), NewRecords(h1, h0), title);
  }

  /** The records put in front over two stretches are those of the later
      stretch followed by those of the earlier one. */
  lemma ChainRecords(h0: seq<Record>, h1: seq<Record>, h2: seq<Record>)
    requires |h0| <= |h1| <= |h2|
    requires h1 == NewRecords(h1, h0) + h0
    requires h2 == NewRecords(h2, h1) + h1
    ensures h2 == NewRecords(h2, h0) + h0
    ensures NewRecords(h2, h0) == NewRecords(h2, h1) + NewRecords(h1, h0)
  {
    var a, b := NewRecords(h2, h1), NewRecords(h1, h0);
    assert h2 == (a + b) + h0;
    assert h2[..|h2| - |h0|] == a + b;
  }

  /** The postings after the first stay admissible once the first is applied. */
  lemma AdmissibleAfterStep(s: Snapshot, ps: seq<Submission>)
    requires ps != [] && forall p :: p in ps ==> Admissible(s.inventory, p)
    ensures forall p :: p in ps[1..] ==> Admissible(Step(s, ps[0]).next.inventory, p)
  {
    assert forall p :: p in ps[1..] ==> p in ps;
  }

  /** A shipment can never drive any row's stock below zero. */
  lemma {:induction false} ReplayNonNegative(s: Snapshot, ps: seq<Submission>)
    requires forall p :: p in ps ==> Admissible(s.inventory, p)
    requires NonNegative(s.inventory)
    ensures NonNegative(Replay(s, ps).inventory)
    decreases |ps|
  {
    if ps != [] {
      var s1 := Step(s, ps[0]).next;
      AdmissibleAfterStep(s, ps);
      ReplayNonNegative(s1, ps[1..]);
    }
  }

  /** When every posting goes through, the history gains exactly one record
      per posting, newest first, each carrying its posting's client, title,
      kind, quantity and timestamp. */
  lemma {:induction false} ReplayAllPosted(s: Snapshot, ps: seq<Submission>)
    requires forall p :: p in ps ==> Admissible(s.inventory, p)
    requires AllPosted(s, ps)
    ensures var r := Replay(s, ps);
            && |r.history| == |s.history| + |ps|
            && r.history[|ps|..] == s.history
            && forall k :: 0 <= k < |ps| ==>
                 var e, p := r.history[k], ps[|ps| - 1 - k];
                 e.timestamp == p.timestamp && e.client == p.client && e.title == p.title
                 && e.kind == p.kind && e.quantity == p.quantity
    decreases |ps|
  {
    if ps != [] {
      var s1 := Step(s, ps[0]).next;
      AdmissibleAfterStep(s, ps);
      ReplayAllPosted(s1, ps[1..]);
      var r := Replay(s, ps);
      var m := |ps| - 1;
      assert r.history[m..] == s1.history;
      forall k | 0 <= k < |ps|
        ensures var e, p := r.history[k], ps[|ps| - 1 - k];
                e.timestamp == p.timestamp && e.client == p.client && e.title == p.title
                && e.kind == p.kind && e.quantity == p.quantity
      {
        if k == m {
          assert r.history[k] == s1.history[0];
        } else {
          assert ps[|ps| - 1 - k] == ps[1..][|ps[1..]| - 1 - k];
        }
      }
    }
  }
}
