/** What each committed transaction leaves behind, read off the tables through their keys. */
module Effects {
  import opened Text
  import opened Stock
  import opened Totals
  import opened Commerce
  import opened CommerceRuns
  import opened ReturnRuns

  // ----- Payments by intent ----------------------------------------------------------------

  /** The payment row of an intent. */
  function PaymentOf(payments: seq<Payment>, intent: string): Option<Payment> {
    var i := FindPayment(payments, intent);
    if i < |payments| then Some(payments[i]) else None
  }

  lemma {:induction false} FindPaymentUpdate(payments: seq<Payment>, i: nat, p: Payment, intent: string)
    requires i < |payments| && p.intent == payments[i].intent
    ensures FindPayment(payments[i := p], intent) == FindPayment(payments, intent)
  {
    if i > 0 {
      assert payments[i := p][1..] == payments[1..][i - 1 := p];
      FindPaymentUpdate(payments[1..], i - 1, p, intent);
    }
  }

  lemma {:induction false} FindPaymentSnoc(payments: seq<Payment>, p: Payment, intent: string)
    ensures var i := FindPayment(payments, intent);
            FindPayment(payments + [p], intent)
            == if i < |payments| || p.intent == intent then i else |payments| + 1
  {
    if payments != [] {
      assert (payments + [p])[1..] == payments[1..] + [p];
      FindPaymentSnoc(payments[1..], p, intent);
    }
  }

  /** Writing the row of an intent, new or not, is seen under that intent and no other. */
  lemma {:induction false} PaymentWritten(payments: seq<Payment>, p: Payment, other: string)
    ensures var i := FindPayment(payments, p.intent);
            var after := if i < |payments| then payments[i := p] else payments + [p];
            PaymentOf(after, other) == if other == p.intent then Some(p) else PaymentOf(payments, other)
  {
    hide FindPayment;
    var i := FindPayment(payments, p.intent);
    if i < |payments| {
      FindPaymentUpdate(payments, i, p, other);
    } else {
      FindPaymentSnoc(payments, p, other);
    }
  }

  // ----- Stripe events ---------------------------------------------------------------------

  /** The amount an order is paid with: the event's, when it has one. */
  function AmountPaid(ev: Event, o: Order): int
    requires ev.CheckoutCompleted?
  {
    match ev.amountTotal
    case Some(amount) => amount
    case None => o.totalCents
  }

  /** A paid order carries the event's amount and tax, its own lines and fee, and the event's intent if there is one. */
  predicate PaidBy(before: Order, after: Order, ev: Event)
    requires ev.CheckoutCompleted?
  {
    && after.status == OrderPaid && after.financial == FinPaid && after.placed
    && after.totalCents == AmountPaid(ev, before) && after.taxCents == ev.amountTax
    && after.lines == before.lines && after.feeCents == before.feeCents
    && after.intent == if ev.intent.Some? then ev.intent else before.intent
  }

  /** The payment captured: the row that was there with its status and amount set, or a new one for the order. */
  function PaidPayment(db: Db, o: string, ev: Event): Payment
    requires ev.CheckoutCompleted? && ev.intent.Some? && o in db.orders
  {
    match PaymentOf(db.payments, ev.intent.value)
    case Some(p) => Payment(p.intent, p.order, Succeeded, AmountPaid(ev, db.orders[o]), p.feeCents)
    case None => Payment(ev.intent.value, o, Succeeded, AmountPaid(ev, db.orders[o]), db.orders[o].feeCents)
  }

  /** Everything a completed checkout writes besides stock, and that it writes nothing else. */
  lemma {:induction false} CompletionWrites(db: Db, l: Label, o: string, t: string, intent: string)
    requires Sells(db, l, o)
    ensures var next, ev := Step(db, l), l.ev;
            && o in db.orders && o in next.orders && PaidBy(db.orders[o], next.orders[o], ev)
            && (t != o ==> (t in next.orders <==> t in db.orders)
                           && (t in db.orders ==> next.orders[t] == db.orders[t]))
            && PaymentOf(next.payments, intent)
               == (if ev.intent == Some(intent) then Some(PaidPayment(db, o, ev)) else PaymentOf(db.payments, intent))
            && (t in next.carts <==> t in db.carts)
            && (t in db.carts ==>
                  next.carts[t] == if ev.cart == Some(t) && db.carts[t] == None then Some(o) else db.carts[t])
            && next.refunds == db.refunds && next.rmas == db.rmas && next.calls == db.calls
  {
    hide SellLines, FindPayment, PaymentOf, ReadsOk, IntentTaken, ConversionTaken;
    if l.ev.intent.Some? {
      PaidUpsert(db, o, l.ev, intent);
    }
  }

  lemma {:induction false} PaidUpsert(db: Db, o: string, ev: Event, intent: string)
    requires ev.CheckoutCompleted? && ev.intent.Some? && o in db.orders
    ensures var paid := AmountPaid(ev, db.orders[o]);
            PaymentOf(UpsertPaid(db.payments, ev.intent.value, o, paid, db.orders[o].feeCents), intent)
            == if ev.intent == Some(intent) then Some(PaidPayment(db, o, ev)) else PaymentOf(db.payments, intent)
  {
    hide FindPayment;
    PaymentWritten(db.payments, PaidPayment(db, o, ev), intent);
  }

  /** A completed checkout sells, line by line, what its queries saw, out of the variants the lines name. */
  lemma {:induction false} CompletionSellsStock(db: Db, l: Label, o: string, variant: string)
    requires Sells(db, l, o)
    ensures o in db.orders && ReadsOk(db.ledger.items, db.orders[o].lines, l.answers)
    ensures var before, after, lines := db.ledger, Step(db, l).ledger, db.orders[o].lines;
            && SoldUnits(after.moves, OrderRef(o)) == SoldUnits(before.moves, OrderRef(o)) + Gets(lines, l.answers)
            && OnHandOf(after.items, variant) == OnHandOf(before.items, variant) - GetsOf(lines, l.answers, variant)
            && (AllFresh(before, lines, l.answers, OrderRef(o)) ==>
                  Sellable(after.items, variant)
                  == Sellable(before.items, variant) - Min(Wanted(lines, variant), Sellable(before.items, variant)))
  {
    hide SellLines, UpsertPaid, ConvertCart, IntentTaken, ConversionTaken, ReadsOk, Gets, GetsOf, OnHandOf, SoldUnits,
         AllFresh, Sellable;
    var lines := db.orders[o].lines;
    PassSells(db.ledger, lines, l.answers, OrderRef(o), variant);
    if AllFresh(db.ledger, lines, l.answers, OrderRef(o)) {
      FreshPassSells(db.ledger, lines, l.answers, OrderRef(o), variant);
    }
  }

  /** The row of a failed payment: marked, or a new one over the order's total. */
  function FailedPayment(db: Db, o: string, intent: string): Payment
    requires o in db.orders
  {
    match PaymentOf(db.payments, intent)
    case Some(p) => Payment(p.intent, p.order, PaymentFailed, p.amountCents, p.feeCents)
    case None => Payment(intent, o, PaymentFailed, db.orders[o].totalCents, 0)
  }

  /** A failed payment of a known order writes its row and nothing else; of an unknown one it writes nothing. */
  lemma {:induction false} FailureWrites(db: Db, ev: Event, intent: string)
    requires ev.IntentFailed?
    ensures var next := OnPaymentFailed(db, ev);
            && PaymentOf(next.payments, intent)
               == (if ev.order.Some? && ev.order.value in db.orders && ev.failedIntent == intent
                   then Some(FailedPayment(db, ev.order.value, intent)) else PaymentOf(db.payments, intent))
            && next.(payments := db.payments) == db
  {
    hide FindPayment;
    if ev.order.Some? && ev.order.value in db.orders {
      PaymentWritten(db.payments, FailedPayment(db, ev.order.value, ev.failedIntent), intent);
    }
  }

  /** The refund rows of a snapshot: the old ones first, then only such of its refunds as were not stored. */
  lemma {:induction false} SnapshotRows(rows: seq<Refund>, order: string, intent: string, snapshot: seq<StripeRefund>)
    ensures var after := AddRefunds(rows, order, intent, snapshot);
            && rows <= after
            && forall k :: |rows| <= k < |after| ==>
                 && after[k].order == order && after[k].intent == intent && after[k].stripeId.Some?
                 && StripeRefund(after[k].stripeId.value, after[k].amountCents) in snapshot
                 && !RefundExists(rows, after[k].stripeId.value)
    decreases |snapshot|
  {
    hide RefundExists;
    if snapshot != [] {
      var row := Refund(order, intent, snapshot[0].amount, Some(snapshot[0].id));
      var next := if RefundExists(rows, snapshot[0].id) then rows else rows + [row];
      SnapshotRows(next, order, intent, snapshot[1..]);
      var after := AddRefunds(rows, order, intent, snapshot);
      forall k | |rows| <= k < |after|
        ensures after[k].order == order && after[k].intent == intent && after[k].stripeId.Some?
        ensures StripeRefund(after[k].stripeId.value, after[k].amountCents) in snapshot
        ensures !RefundExists(rows, after[k].stripeId.value)
      {
        if k < |next| {
          assert after[k] == row && snapshot[0] in snapshot;
        } else {
          RefundStays(rows, row, after[k].stripeId.value);
        }
      }
    }
  }

  lemma {:induction false} RefundStays(rows: seq<Refund>, row: Refund, id: string)
    ensures RefundExists(rows, id) ==> RefundExists(rows + [row], id)
  {
    if RefundExists(rows, id) {
      var k :| 0 <= k < |rows| && rows[k].stripeId == Some(id);
      assert (rows + [row])[k] == rows[k];
    }
  }

  /** How a refund leaves the order: in full it is closed, in part its status stays. */
  predicate RefundedIn(before: Order, after: Order, fully: bool) {
    && after.financial == (if fully then FullyRefunded else PartiallyRefunded)
    && after.status == (if fully then OrderRefunded else before.status)
    && after.(financial := before.financial, status := before.status) == before
  }

  /** How a refund leaves the payment: in full it is marked, in part it stays. */
  function RefundedPayment(p: Payment, fully: bool): Payment {
    Payment(p.intent, p.order, if fully then PaymentRefunded else p.status, p.amountCents, p.feeCents)
  }

  /** A refund snapshot of a known payment marks its order and payment by the snapshot's total and touches no other. */
  lemma {:induction false} SnapshotWrites(db: Db, intent: string, snapshot: seq<StripeRefund>, t: string)
    requires PaymentOf(db.payments, intent).Some? && PaymentOf(db.payments, intent).value.order in db.orders
    ensures var p := PaymentOf(db.payments, intent).value;
            var fully := Total(snapshot) >= p.amountCents;
            var after := OnChargeRefunded(db, ChargeRefunded(Some(intent), snapshot));
            && after.Some?
            && p.order in after.value.orders && RefundedIn(db.orders[p.order], after.value.orders[p.order], fully)
            && (t != p.order ==> (t in after.value.orders <==> t in db.orders)
                                 && (t in db.orders ==> after.value.orders[t] == db.orders[t]))
            && PaymentOf(after.value.payments, t)
               == (if t == intent then Some(RefundedPayment(p, fully)) else PaymentOf(db.payments, t))
            && after.value.refunds == AddRefunds(db.refunds, p.order, intent, snapshot)
            && after.value.(orders := db.orders, payments := db.payments, refunds := db.refunds) == db
  {
    hide FindPayment, AddRefunds, Total;
    var p := PaymentOf(db.payments, intent).value;
    PaymentWritten(db.payments, RefundedPayment(p, true), t);
  }

  /** A paid order's completion commits exactly when neither the intent nor the order's cart is taken elsewhere. */
  lemma {:induction false} SellsIff(db: Db, l: Label, o: string)
    requires l.Deliver? && l.ev.CheckoutCompleted? && l.ev.order == Some(o) && Answered(db, l.ev, l.answers)
    ensures Sells(db, l, o) <==>
              && l.eventId !in db.done && l.crash != BeforeCommit && o in db.orders
              && db.orders[o].status != OrderPaid && db.orders[o].financial != FinPaid
              && (l.ev.intent.Some? ==>
                    forall t :: t in db.orders && t != o ==> db.orders[t].intent != l.ev.intent)
              && (l.ev.cart.Some? && l.ev.cart.value in db.carts && db.carts[l.ev.cart.value] == None ==>
                    forall t :: t in db.carts ==> db.carts[t] != Some(o))
  {
    hide SellLines, UpsertPaid, ConvertCart, ReadsOk;
  }

  /** An unmarked delivery that reaches its commit runs the handler of its event; any other changes nothing. */
  lemma {:induction false} DeliveryRuns(db: Db, l: Label)
    requires l.Deliver? && Answered(db, l.ev, l.answers)
    ensures var next := Step(db, l);
            if l.eventId in db.done || l.crash == BeforeCommit then next == db
            else
              next.(done := db.done)
              == match l.ev
                 case CheckoutCompleted(_, _, _, _, _) => OrElse(OnCheckoutCompleted(db, l.ev, l.answers), db)
                 case IntentFailed(_, _) => OnPaymentFailed(db, l.ev)
                 case ChargeRefunded(_, _) => OrElse(OnChargeRefunded(db, l.ev), db)
                 case Unhandled => db
  {
    hide OnCheckoutCompleted, OnPaymentFailed, OnChargeRefunded, Answered;
    HandleLeavesMarkers(db, l.ev, l.answers);
  }

  /** The marker is set by the deliveries that get through, and by no others. */
  lemma {:induction false} MarkerWrites(db: Db, eventId: string, ev: Event, crash: Crash, answers: seq<Read>, t: string)
    requires Answered(db, ev, answers)
    ensures t in Process(db, eventId, ev, crash, answers).done
            <==> t in db.done || (t == eventId && crash == NoCrash && Handle(db, ev, answers).Some?)
    ensures eventId in db.done ==> Process(db, eventId, ev, crash, answers) == db
  {
    hide OnCheckoutCompleted, OnPaymentFailed, OnChargeRefunded, Answered, Handle;
    HandleLeavesMarkers(db, ev, answers);
  }

  lemma {:induction false} HandleLeavesMarkers(db: Db, ev: Event, answers: seq<Read>)
    requires Answered(db, ev, answers)
    ensures Handle(db, ev, answers).Some? ==> Handle(db, ev, answers).value.done == db.done
  {
    hide SellLines, UpsertPaid, UpsertFailed, ConvertCart, IntentTaken, ConversionTaken, ReadsOk, AddRefunds, Total;
  }

  // ----- Orders, carts and returns ---------------------------------------------------------

  /** A new order is pending and unpaid with the given amounts; an id or an intent in use is refused. */
  lemma {:induction false} OrderPlaced(db: Db, id: string, lines: seq<Line>, total: int, fee: int,
                                       intent: Option<string>)
    ensures var next := Step(db, PlaceOrder(id, lines, total, fee, intent));
            if id in db.orders || IntentTaken(db.orders, id, intent) then next == db
            else
              && next.(orders := db.orders) == db
              && next.orders == db.orders[id := Order(lines, OrderPending, Unpaid, total, 0, fee, intent, false)]
  {
  }

  /** A new cart is open; a known one stays as it is. */
  lemma {:induction false} CartOpened(db: Db, token: string)
    ensures var next := Step(db, OpenCart(token));
            && token in next.carts && next.(carts := db.carts) == db
            && next.carts[token] == (if token in db.carts then db.carts[token] else None)
            && (forall t :: t != token ==> (t in next.carts <==> t in db.carts))
            && (forall t :: t in db.carts ==> next.carts[t] == db.carts[t])
  {
  }

  /** A return is requested over the given lines of a known order; an id in use is refused. */
  lemma {:induction false} ReturnRequested(db: Db, id: string, order: string, lines: seq<Line>)
    ensures var next := Step(db, RequestReturn(id, order, lines));
            if id in db.rmas || order !in db.orders then next == db
            else next.(rmas := db.rmas) == db && next.rmas == db.rmas[id := Return(order, Requested, lines)]
  {
  }

  /** Stock is created and adjusted as the inventory service does, or not at all. */
  lemma {:induction false} StockWritten(db: Db, v: string, loc: string, onHand: nat, delta: int, kind: MoveKind,
                                        seen: int)
    ensures var created := Create(db.ledger, v, loc, onHand);
            Step(db, NewStock(v, loc, onHand)) == if created.Ok? then db.(ledger := created.value) else db
    ensures var adjusted := Adjust(db.ledger, v, loc, delta, kind, seen);
            Step(db, AdjustStock(v, loc, delta, kind, seen))
            == if adjusted.Ok? then db.(ledger := adjusted.value) else db
  {
  }

  // ----- Refunds and returns ---------------------------------------------------------------

  /** An admin refund writes its row and marks the order and the payment by its own amount. */
  lemma {:induction false} AdminRefundWrites(db: Db, order: string, p: Captured, amount: int, stripeId: string,
                                             t: string)
    requires CommitAdminRefund(db, order, p, amount, stripeId).Some?
    ensures var after, fully := CommitAdminRefund(db, order, p, amount, stripeId).value, amount >= p.amountCents;
            && order in db.orders && order in after.orders && RefundedIn(db.orders[order], after.orders[order], fully)
            && (t != order ==> (t in after.orders <==> t in db.orders)
                               && (t in db.orders ==> after.orders[t] == db.orders[t]))
            && PaymentOf(db.payments, p.intent).Some?
            && PaymentOf(after.payments, t)
               == (if t == p.intent then Some(RefundedPayment(PaymentOf(db.payments, t).value, fully))
                   else PaymentOf(db.payments, t))
            && after.refunds == db.refunds + [Refund(order, p.intent, amount, Some(stripeId))]
            && after.(orders := db.orders, payments := db.payments, refunds := db.refunds) == db
  {
    hide FindPayment, RefundExists;
    PaymentWritten(db.payments, RefundedPayment(PaymentOf(db.payments, p.intent).value, true), t);
  }

  /** The price of every single unit, one after the other. */
  function UnitPrices(lines: seq<Line>): seq<int> {
    if lines == [] then []
    else seq(lines[0].quantity, _ => lines[0].unitPriceCents) + UnitPrices(lines[1..])
  }

  lemma {:induction false} SumConcat(a: seq<int>, b: seq<int>)
    ensures Sum(a + b) == Sum(a) + Sum(b)
  {
    if a == [] {
      assert a + b == b;
    } else {
      assert (a + b)[1..] == a[1..] + b;
      SumConcat(a[1..], b);
    }
  }

  lemma {:induction false} SumRepeated(n: nat, x: int)
    ensures Sum(seq(n, _ => x)) == n * x
  {
    if n > 0 {
      assert seq(n, _ => x)[1..] == seq(n - 1, _ => x);
      SumRepeated(n - 1, x);
    }
  }

  /** A return refunds the price of each of its units. */
  lemma {:induction false} AmountIsUnits(lines: seq<Line>)
    ensures Amount(lines) == Sum(UnitPrices(lines))
  {
    if lines != [] {
      AmountIsUnits(lines[1..]);
      SumRepeated(lines[0].quantity, lines[0].unitPriceCents);
      SumConcat(seq(lines[0].quantity, _ => lines[0].unitPriceCents), UnitPrices(lines[1..]));
    }
  }

  /**
   A return refund marks the return; with a captured payment it writes a row over the
   price of the units returned and judges the order by it, without one it leaves both.
   */
  lemma {:induction false} ReturnRefundWrites(db: Db, l: Label, id: string, t: string)
    requires CommitsRefund(db, l, id)
    ensures var next, r, paid, amount := Step(db, l), db.rmas[id], db.calls[l.refund].paid, Amount(db.rmas[id].lines);
            && next.rmas == db.rmas[id := Return(r.order, ReturnRefunded, r.lines)]
            && next.calls == db.calls[l.refund := Ended]
            && next.refunds == (if paid.None? then db.refunds
                                else db.refunds + [Refund(r.order, paid.value.intent, amount, l.returnStripeId)])
            && r.order in db.orders && r.order in next.orders
            && (paid.None? ==> next.orders == db.orders)
            && (paid.Some? ==>
                  next.orders[r.order] == db.orders[r.order].(financial :=
                    if amount < paid.value.amountCents then PartiallyRefunded else FullyRefunded))
            && (t != r.order ==> (t in next.orders <==> t in db.orders)
                                 && (t in db.orders ==> next.orders[t] == db.orders[t]))
            && next.payments == db.payments && next.carts == db.carts && next.done == db.done
  {
    hide Restock, TargetsOk, Amount, RefundExists;
  }

  /** A written decision approves or rejects its return, whatever its status is by then, and writes nothing else. */
  lemma {:induction false} DecisionWrites(db: Db, c: nat)
    requires DecisionPending(db, c)
    ensures var next, call := Step(db, FinishDecision(c)), db.calls[c];
            && next.calls == db.calls[c := Ended]
            && (call.id in db.rmas ==>
                  call.id in next.rmas
                  && next.rmas[call.id].status == (if call.approve then Approved else Rejected)
                  && next.rmas[call.id].lines == db.rmas[call.id].lines
                  && next.rmas[call.id].order == db.rmas[call.id].order)
            && next.rmas.Keys == db.rmas.Keys
            && (forall t :: t in db.rmas && t != call.id ==> next.rmas[t] == db.rmas[t])
            && next.(calls := db.calls, rmas := db.rmas) == db
  {
  }

  /** A refund call is opened exactly for a return that is neither refunded nor rejected. */
  lemma {:induction false} RefundCallOpens(db: Db, id: string, p: Option<Captured>)
    ensures var next := Step(db, BeginRefund(id, p));
            if id in db.rmas && db.rmas[id].status != ReturnRefunded && db.rmas[id].status != Rejected
            then next.calls == db.calls + [RefundCall(id, p)] && next.(calls := db.calls) == db
            else next == db
  {
  }

  /** An approval is opened exactly for a requested return, a rejection for any return that is not refunded. */
  lemma {:induction false} DecisionCallOpens(db: Db, id: string, approve: bool)
    ensures var next := Step(db, BeginDecision(id, approve));
            if id in db.rmas
               && (if approve then db.rmas[id].status == Requested else db.rmas[id].status != ReturnRefunded)
            then next.calls == db.calls + [DecisionCall(id, approve)] && next.(calls := db.calls) == db
            else next == db
  {
  }

  /** A dropped call is over and writes nothing, whatever it was about to do. */
  lemma {:induction false} CallDropped(db: Db, c: nat)
    requires c < |db.calls|
    ensures var next := Step(db, DropCall(c));
            && next.(calls := db.calls) == db && |next.calls| == |db.calls| && next.calls[c] == Ended
            && (forall k :: 0 <= k < |db.calls| && k != c ==> next.calls[k] == db.calls[k])
            && Step(next, FinishDecision(c)) == next
  {
  }
}
