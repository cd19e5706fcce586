/**
 The billing worker and the refund endpoints as they run: methods that update the
 tables row by row, with a rollback when a unique index rejects a write. Each is
 proved to have exactly the effect of its transaction in `Commerce`.
 */
module Billing {
  import opened Text
  import opened Stock
  import opened Commerce

  class Database {
    var orders: map<string, Order>
    var payments: seq<Payment>
    var refunds: seq<Refund>
    var carts: map<string, Option<string>>
    var rmas: map<string, Return>
    var calls: seq<Call>
    var done: set<string>
    const stock: StockTables

    constructor ()
      ensures State() == EMPTY && fresh(stock)
    {
      orders, payments, refunds, carts, rmas, calls, done := map[], [], [], map[], map[], [], {};
      stock := new StockTables();
    }

    function State(): Db
      reads this, stock
    {
      Db(orders, payments, refunds, carts, rmas, calls, stock.State(), done)
    }

    /** Roll the tables back to what they were when the transaction began. */
    method Rollback(before: Db)
      modifies this, stock
      ensures State() == before
    {
      orders, payments, refunds := before.orders, before.payments, before.refunds;
      carts, rmas, calls, done := before.carts, before.rmas, before.calls, before.done;
      stock.items, stock.moves := before.ledger.items, before.ledger.moves;
    }

    method UpsertPayment(intent: string, order: string, paid: int, fee: int)
      modifies this
      ensures payments == UpsertPaid(old(payments), intent, order, paid, fee)
      ensures unchanged(this`orders) && unchanged(this`refunds) && unchanged(this`carts)
      ensures unchanged(this`rmas) && unchanged(this`calls) && unchanged(this`done)
    {
      var i := FindPayment(payments, intent);
      if i < |payments| {
        payments := payments[i := payments[i].(status := Succeeded, amountCents := paid)];
      } else {
        payments := payments + [Payment(intent, order, Succeeded, paid, fee)];
      }
    }

    method CompleteCheckout(ev: Event, answers: seq<Read>) returns (ok: bool)
      requires ev.CheckoutCompleted? && Answered(State(), ev, answers)
      modifies this, stock
      ensures ok ==> OnCheckoutCompleted(old(State()), ev, answers) == Some(State())
      ensures !ok ==> OnCheckoutCompleted(old(State()), ev, answers) == None && State() == old(State())
    {
      hide SellLines, UpsertPaid, MarkPaid, ReadsOk;
      ghost var start := State();
      var before := State();
      if ev.order == None || ev.order.value !in orders || AlreadyPaid(orders[ev.order.value]) {
        return true;
      }
      var id := ev.order.value;
      var order := orders[id];
      var paid := if ev.amountTotal.Some? then ev.amountTotal.value else order.totalCents;
      if IntentTaken(orders, id, ev.intent) {
        return false;
      }
      orders := orders[id := MarkPaid(order, paid, ev.amountTax, ev.intent)];
      if ev.intent.Some? {
        UpsertPayment(ev.intent.value, id, paid, order.feeCents);
      }
      stock.DecrementStock(order.lines, answers, OrderRef(id));
      if ConversionTaken(carts, ev.cart, id) {
        Rollback(before);
        return false;
      }
      if ev.cart.Some? && ev.cart.value in carts && carts[ev.cart.value] == None {
        carts := carts[ev.cart.value := Some(id)];
      }
      return true;
    }

    method FailPayment(ev: Event)
      requires ev.IntentFailed?
      modifies this
      ensures State() == OnPaymentFailed(old(State()), ev)
    {
      if ev.order == None || ev.order.value !in orders {
        return;
      }
      var i := FindPayment(payments, ev.failedIntent);
      if i < |payments| {
        payments := payments[i := payments[i].(status := PaymentFailed)];
      } else {
        payments := payments + [Payment(ev.failedIntent, ev.order.value, PaymentFailed,
                                        orders[ev.order.value].totalCents, 0)];
      }
    }

    method WriteRefunds(payment: Payment, snapshot: seq<StripeRefund>) returns (totalRefunded: int)
      modifies this`refunds
      ensures refunds == AddRefunds(old(refunds), payment.order, payment.intent, snapshot)
      ensures totalRefunded == Total(snapshot)
    {
      totalRefunded := 0;
      for k := 0 to |snapshot|
        invariant AddRefunds(old(refunds), payment.order, payment.intent, snapshot)
               == AddRefunds(refunds, payment.order, payment.intent, snapshot[k..])
        invariant totalRefunded + Total(snapshot[k..]) == Total(snapshot)
      {
        var r := snapshot[k];
        assert snapshot[k..][1..] == snapshot[k + 1..];
        totalRefunded := totalRefunded + r.amount;
        if RefundExists(refunds, r.id) {
          continue;
        }
        refunds := refunds + [Refund(payment.order, payment.intent, r.amount, Some(r.id))];
      }
    }

    /** Write the refund rows that are missing and judge the snapshot's total. */
    method RefundCharge(ev: Event) returns (ok: bool)
      requires ev.ChargeRefunded?
      modifies this
      ensures ok ==> OnChargeRefunded(old(State()), ev) == Some(State())
      ensures !ok ==> OnChargeRefunded(old(State()), ev) == None && State() == old(State())
    {
      if ev.chargeIntent == None {
        return true;
      }
      var i := FindPayment(payments, ev.chargeIntent.value);
      if i == |payments| {
        return true;
      }
      var payment := payments[i];
      var before := refunds;
      var totalRefunded := WriteRefunds(payment, ev.refunds);
      if payment.order !in orders {
        refunds := before;
        return false;
      }
      var fully := totalRefunded >= payment.amountCents;
      orders := orders[payment.order := MarkRefunded(orders[payment.order], fully)];
      if fully {
        payments := payments[i := payment.(status := PaymentRefunded)];
      }
      return true;
    }

    /** Skip marked events, run the handler, and mark the event unless the worker died or the handler threw. */
    method ProcessEvent(eventId: string, ev: Event, crash: Crash, answers: seq<Read>)
      requires Answered(State(), ev, answers)
      modifies this, stock
      ensures State() == Process(old(State()), eventId, ev, crash, answers)
    {
      hide OnCheckoutCompleted, OnPaymentFailed, OnChargeRefunded, Answered;
      if eventId in done || crash == BeforeCommit {
        return;
      }
      var ok := true;
      match ev {
        case CheckoutCompleted(_, _, _, _, _) => ok := CompleteCheckout(ev, answers);
        case IntentFailed(_, _) => FailPayment(ev);
        case ChargeRefunded(_, _) => ok := RefundCharge(ev);
        case Unhandled =>
      }
      if ok && crash != BeforeMarker {
        done := done + {eventId};
      }
    }

    /** The transaction that follows a Stripe refund created by the admin endpoint. */
    method RecordAdminRefund(order: string, p: Captured, amount: int, stripeId: string) returns (ok: bool)
      modifies this
      ensures ok ==> CommitAdminRefund(old(State()), order, p, amount, stripeId) == Some(State())
      ensures !ok ==> CommitAdminRefund(old(State()), order, p, amount, stripeId) == None && State() == old(State())
    {
      var i := FindPayment(payments, p.intent);
      if RefundExists(refunds, stripeId) || order !in orders || i == |payments| {
        return false;
      }
      var fully := amount >= p.amountCents;
      refunds := refunds + [Refund(order, p.intent, amount, Some(stripeId))];
      orders := orders[order := MarkRefunded(orders[order], fully)];
      if fully {
        payments := payments[i := payments[i].(status := PaymentRefunded)];
      }
      return true;
    }

    /** The first transaction of an approval or rejection; a refused one opens no call. */
    method BeginDecision(id: string, approve: bool) returns (call: Option<nat>)
      modifies this
      ensures State() == CheckDecision(old(State()), id, approve)
      ensures call == if DecisionAllowed(old(State()), id, approve) then Some(|old(calls)|) else None
    {
      if id !in rmas {
        return None;
      }
      if approve && rmas[id].status != Requested {
        return None;
      }
      if !approve && rmas[id].status == ReturnRefunded {
        return None;
      }
      call := Some(|calls|);
      calls := calls + [DecisionCall(id, approve)];
    }

    /** The second transaction. */
    method FinishDecision(call: nat)
      requires DecisionPending(State(), call)
      modifies this
      ensures State() == CommitDecision(old(State()), call)
    {
      var id, approve := calls[call].id, calls[call].approve;
      calls := calls[call := Ended];
      if id in rmas {
        rmas := rmas[id := rmas[id].(status := if approve then Approved else Rejected)];
      }
    }

    /** An approval or rejection with nothing in between. */
    method DecideRma(id: string, approve: bool) returns (ok: bool)
      modifies this
      ensures ok == DecisionAllowed(old(State()), id, approve)
      ensures State() == if ok then CommitDecision(CheckDecision(old(State()), id, approve), |old(calls)|)
                         else old(State())
    {
      var call := BeginDecision(id, approve);
      if call.Some? {
        FinishDecision(call.value);
      }
      ok := call.Some?;
    }

    /** The first transaction of a refund call: a refunded return is left alone, a rejected one refused. */
    method BeginRefund(id: string, p: Option<Captured>) returns (call: Option<nat>)
      modifies this
      ensures State() == CheckRefund(old(State()), id, p)
      ensures call == if RefundAllowed(old(State()), id) then Some(|old(calls)|) else None
    {
      if id !in rmas || rmas[id].status == ReturnRefunded || rmas[id].status == Rejected {
        return None;
      }
      call := Some(|calls|);
      calls := calls + [RefundCall(id, p)];
    }

    /** The second transaction: restock, record the refund and mark the return, or roll all of it back. */
    method FinishRefund(call: nat, stripeId: Option<string>, targets: seq<Option<nat>>) returns (ok: bool)
      requires RefundPending(State(), call) && Targeted(State(), call, targets)
      modifies this, stock
      ensures ok ==> WriteRefund(old(State()), call, stripeId, targets) == Some(State())
      ensures !ok ==> WriteRefund(old(State()), call, stripeId, targets) == None && State() == End(old(State()), call)
    {
      hide Restock, Amount, TargetsOk;
      var id, p := calls[call].id, calls[call].paid;
      calls := calls[call := Ended];
      var before := State();
      if id !in rmas {
        return false;
      }
      var r := rmas[id];
      stock.RestockAll(r.lines, targets, ReturnRef(id));
      if p.Some? {
        if stripeId.Some? && RefundExists(refunds, stripeId.value) {
          Rollback(before);
          return false;
        }
        refunds := refunds + [Refund(r.order, p.value.intent, Amount(r.lines), stripeId)];
      }
      if r.order !in orders {
        Rollback(before);
        return false;
      }
      if p.Some? {
        orders := orders[r.order := orders[r.order].(financial :=
          if Amount(r.lines) >= p.value.amountCents then FullyRefunded else PartiallyRefunded)];
      }
      rmas := rmas[id := r.(status := ReturnRefunded)];
      return true;
    }

    /** A refund call with nothing in between. */
    method RefundRma(id: string, p: Option<Captured>, stripeId: Option<string>, targets: seq<Option<nat>>)
      returns (ok: bool)
      requires Targeted(CheckRefund(State(), id, p), |calls|, targets)
      modifies this, stock
      ensures ok ==> RefundAllowed(old(State()), id)
      ensures State() == if RefundAllowed(old(State()), id)
                         then CommitRefund(CheckRefund(old(State()), id, p), |old(calls)|, stripeId, targets)
                         else old(State())
    {
      hide WriteRefund;
      var call := BeginRefund(id, p);
      ok := false;
      if call.Some? {
        ok := FinishRefund(call.value, stripeId, targets);
      }
    }
  }
}
