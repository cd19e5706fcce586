/**
 The order, payment, refund, cart and return tables as an event machine. Every
 database transaction is one step; Stripe events are delivered any number of times,
 in any order, with worker crashes before the commit and between the commit and the
 processed-event marker, and with markers expiring. The on-hand levels a step decides
 on are whatever its queries answered, and the calls on returns check in one step and
 write in a later one.
 */
module Commerce {
  import opened Text
  import opened Stock

  datatype OrderStatus = OrderPending | OrderPaid | OrderRefunded

  datatype FinancialStatus = Unpaid | FinPaid | PartiallyRefunded | FullyRefunded

  datatype PaymentStatus = Succeeded | PaymentFailed | PaymentRefunded

  datatype ReturnStatus = Requested | Approved | ReturnRefunded | Rejected

  /** `placed` is whether placedAt was set, which only a paid checkout does. */
  datatype Order = Order(lines: seq<Line>, status: OrderStatus, financial: FinancialStatus, totalCents: int,
                         taxCents: int, feeCents: int, intent: Option<string>, placed: bool)

  /** One row per Stripe payment intent. */
  datatype Payment = Payment(intent: string, order: string, status: PaymentStatus, amountCents: int, feeCents: int)

  /** The refunded payment is named by its intent. */
  datatype Refund = Refund(order: string, intent: string, amountCents: int, stripeId: Option<string>)

  datatype Return = Return(order: string, status: ReturnStatus, lines: seq<Line>)

  /** A captured payment as a refund call read it before talking to Stripe. */
  datatype Captured = Captured(intent: string, amountCents: int)

  /** A call on a return whose check passed and whose write is still to come. */
  datatype Call =
    | RefundCall(id: string, paid: Option<Captured>)
    | DecisionCall(id: string, approve: bool)
    | Ended

  datatype Db = Db(orders: map<string, Order>, payments: seq<Payment>, refunds: seq<Refund>,
                   carts: map<string, Option<string>>, rmas: map<string, Return>, calls: seq<Call>,
                   ledger: Ledger, done: set<string>)

  const EMPTY := Db(map[], [], [], map[], map[], [], Ledger([], []), {})

  // ----- Stripe events -------------------------------------------------------------

  datatype StripeRefund = StripeRefund(id: string, amount: int)

  datatype Event =
    | CheckoutCompleted(order: Option<string>, intent: Option<string>, amountTotal: Option<int>,
                        amountTax: int, cart: Option<string>)
    | IntentFailed(order: Option<string>, failedIntent: string)
    | ChargeRefunded(chargeIntent: Option<string>, refunds: seq<StripeRefund>)
    | Unhandled

  /** The row index of the payment for an intent, or the table's length. */
  function FindPayment(payments: seq<Payment>, intent: string): (i: nat)
    ensures i <= |payments|
    ensures i < |payments| ==> payments[i].intent == intent
    ensures forall k :: 0 <= k < i ==> payments[k].intent != intent
  {
    if payments == [] || payments[0].intent == intent then 0 else 1 + FindPayment(payments[1..], intent)
  }

  predicate RefundExists(refunds: seq<Refund>, stripeId: string) {
    exists k :: 0 <= k < |refunds| && refunds[k].stripeId == Some(stripeId)
  }

  /** The guard against paying an order twice. */
  predicate AlreadyPaid(o: Order) {
    o.status == OrderPaid || o.financial == FinPaid
  }

  function MarkPaid(o: Order, paid: int, tax: int, intent: Option<string>): Order {
    o.(status := OrderPaid, financial := FinPaid, totalCents := paid, taxCents := tax, placed := true,
       intent := if intent.Some? then intent else o.intent)
  }

  function UpsertPaid(payments: seq<Payment>, intent: string, order: string, paid: int, fee: int): seq<Payment> {
    var i := FindPayment(payments, intent);
    if i < |payments| then payments[i := payments[i].(status := Succeeded, amountCents := paid)]
    else payments + [Payment(intent, order, Succeeded, paid, fee)]
  }

  function UpsertFailed(payments: seq<Payment>, intent: string, order: string, o: Order): seq<Payment> {
    var i := FindPayment(payments, intent);
    if i < |payments| then payments[i := payments[i].(status := PaymentFailed)]
    else payments + [Payment(intent, order, PaymentFailed, o.totalCents, 0)]
  }

  /** Another order already carries the intent: the unique index rejects the update. */
  predicate IntentTaken(orders: map<string, Order>, order: string, intent: Option<string>) {
    intent.Some? && exists id :: id in orders && id != order && orders[id].intent == intent
  }

  /** The open cart with the token would take an order that another cart has. */
  predicate ConversionTaken(carts: map<string, Option<string>>, cart: Option<string>, order: string) {
    cart.Some? && cart.value in carts && carts[cart.value] == None
    && exists t :: t in carts && carts[t] == Some(order)
  }

  function ConvertCart(carts: map<string, Option<string>>, cart: Option<string>, order: string)
    : map<string, Option<string>>
  {
    if cart.Some? && cart.value in carts && carts[cart.value] == None then carts[cart.value := Some(order)] else carts
  }

  /** The completion reaches the body of the transaction: the order exists and is not paid. */
  predicate Completes(db: Db, ev: Event) {
    ev.CheckoutCompleted? && ev.order.Some? && ev.order.value in db.orders && !AlreadyPaid(db.orders[ev.order.value])
  }

  /** The stock queries of the completion were answered, by current or outdated rows. */
  predicate Answered(db: Db, ev: Event, answers: seq<Read>) {
    Completes(db, ev) ==> ReadsOk(db.ledger.items, db.orders[ev.order.value].lines, answers)
  }

  /** The committed effect of a handler, or None when a unique index aborts the transaction. */
  function OnCheckoutCompleted(db: Db, ev: Event, answers: seq<Read>): Option<Db>
    requires ev.CheckoutCompleted? && Answered(db, ev, answers)
  {
    if !Completes(db, ev) then Some(db)
    else
      var id := ev.order.value;
      var o := db.orders[id];
      var paid := if ev.amountTotal.Some? then ev.amountTotal.value else o.totalCents;
      if IntentTaken(db.orders, id, ev.intent) || ConversionTaken(db.carts, ev.cart, id) then None
      else Some(db.(
        orders := db.orders[id := MarkPaid(o, paid, ev.amountTax, ev.intent)],
        payments := if ev.intent.Some? then UpsertPaid(db.payments, ev.intent.value, id, paid, o.feeCents)
                    else db.payments,
        ledger := SellLines(db.ledger, o.lines, answers, OrderRef(id)),
        carts := ConvertCart(db.carts, ev.cart, id)))
  }

  function OnPaymentFailed(db: Db, ev: Event): Db
    requires ev.IntentFailed?
  {
    if ev.order == None || ev.order.value !in db.orders then db
    else db.(payments := UpsertFailed(db.payments, ev.failedIntent, ev.order.value, db.orders[ev.order.value]))
  }

  function AddRefunds(rows: seq<Refund>, order: string, intent: string, snapshot: seq<StripeRefund>): seq<Refund>
    decreases |snapshot|
  {
    if snapshot == [] then rows
    else
      AddRefunds(if RefundExists(rows, snapshot[0].id) then rows
                 else rows + [Refund(order, intent, snapshot[0].amount, Some(snapshot[0].id))],
                 order, intent, snapshot[1..])
  }

  function Total(snapshot: seq<StripeRefund>): int {
    if snapshot == [] then 0 else snapshot[0].amount + Total(snapshot[1..])
  }

  function MarkRefunded(o: Order, fully: bool): Order {
    if fully then o.(financial := FullyRefunded, status := OrderRefunded) else o.(financial := PartiallyRefunded)
  }

  function OnChargeRefunded(db: Db, ev: Event): Option<Db>
    requires ev.ChargeRefunded?
  {
    if ev.chargeIntent == None then Some(db)
    else
      var i := FindPayment(db.payments, ev.chargeIntent.value);
      if i == |db.payments| then Some(db)
      else
        var p := db.payments[i];
        if p.order !in db.orders then None
        else
          var fully := Total(ev.refunds) >= p.amountCents;
          Some(db.(
            refunds := AddRefunds(db.refunds, p.order, p.intent, ev.refunds),
            orders := db.orders[p.order := MarkRefunded(db.orders[p.order], fully)],
            payments := if fully then db.payments[i := p.(status := PaymentRefunded)] else db.payments))
  }

  function Handle(db: Db, ev: Event, answers: seq<Read>): Option<Db>
    requires Answered(db, ev, answers)
  {
    match ev
    case CheckoutCompleted(_, _, _, _, _) => OnCheckoutCompleted(db, ev, answers)
    case IntentFailed(_, _) => Some(OnPaymentFailed(db, ev))
    case ChargeRefunded(_, _) => OnChargeRefunded(db, ev)
    case Unhandled => Some(db)
  }

  /** Where a worker dies while processing a job. */
  datatype Crash = NoCrash | BeforeCommit | BeforeMarker

  function Process(db: Db, eventId: string, ev: Event, crash: Crash, answers: seq<Read>): Db
    requires Answered(db, ev, answers)
  {
    if eventId in db.done || crash == BeforeCommit then db
    else match Handle(db, ev, answers)
      case None => db
      case Some(after) => if crash == BeforeMarker then after else after.(done := after.done + {eventId})
  }

  // ----- Administrative steps --------------------------------------------------------

  /** The transaction of the admin refund endpoint, after Stripe created the refund. */
  function CommitAdminRefund(db: Db, order: string, p: Captured, amount: int, stripeId: string): Option<Db> {
    var i := FindPayment(db.payments, p.intent);
    if RefundExists(db.refunds, stripeId) || order !in db.orders || i == |db.payments| then None
    else
      var fully := amount >= p.amountCents;
      Some(db.(
        refunds := db.refunds + [Refund(order, p.intent, amount, Some(stripeId))],
        orders := db.orders[order := MarkRefunded(db.orders[order], fully)],
        payments := if fully then db.payments[i := db.payments[i].(status := PaymentRefunded)] else db.payments))
  }

  function Amount(lines: seq<Line>): int {
    if lines == [] then 0 else lines[0].unitPriceCents * lines[0].quantity + Amount(lines[1..])
  }

  function OrElse(after: Option<Db>, db: Db): Db {
    if after.Some? then after.value else db
  }

  // ----- Calls on returns --------------------------------------------------------------

  /** A refunded return is left alone and a rejected one refused. */
  predicate Closed(status: ReturnStatus) {
    status == ReturnRefunded || status == Rejected
  }

  predicate RefundAllowed(db: Db, id: string) {
    id in db.rmas && !Closed(db.rmas[id].status)
  }

  /** Only requests are approved, and refunded returns are not rejected. */
  predicate DecisionAllowed(db: Db, id: string, approve: bool) {
    id in db.rmas && if approve then db.rmas[id].status == Requested else db.rmas[id].status != ReturnRefunded
  }

  function Open(db: Db, c: Call): Db {
    db.(calls := db.calls + [c])
  }

  function End(db: Db, c: nat): Db
    requires c < |db.calls|
  {
    db.(calls := db.calls[c := Ended])
  }

  /** The first transaction of a refund call. */
  function CheckRefund(db: Db, id: string, p: Option<Captured>): Db {
    if RefundAllowed(db, id) then Open(db, RefundCall(id, p)) else db
  }

  /** The first transaction of an approval or a rejection. */
  function CheckDecision(db: Db, id: string, approve: bool): Db {
    if DecisionAllowed(db, id, approve) then Open(db, DecisionCall(id, approve)) else db
  }

  predicate RefundPending(db: Db, c: nat) {
    c < |db.calls| && db.calls[c].RefundCall?
  }

  predicate DecisionPending(db: Db, c: nat) {
    c < |db.calls| && db.calls[c].DecisionCall?
  }

  /** The restock queries of the call were answered. */
  predicate Targeted(db: Db, c: nat, targets: seq<Option<nat>>) {
    RefundPending(db, c) && db.calls[c].id in db.rmas ==>
      TargetsOk(db.ledger.items, db.rmas[db.calls[c].id].lines, targets)
  }

  /** The return or its order is gone, or the refund is stored already. */
  predicate WriteFails(db: Db, c: nat, stripeId: Option<string>)
    requires RefundPending(db, c)
  {
    var id, p := db.calls[c].id, db.calls[c].paid;
    id !in db.rmas || db.rmas[id].order !in db.orders
    || (p.Some? && stripeId.Some? && RefundExists(db.refunds, stripeId.value))
  }

  /** The writes of a refund call, or None when the transaction fails; the status is not looked at again. */
  function WriteRefund(db: Db, c: nat, stripeId: Option<string>, targets: seq<Option<nat>>): Option<Db>
    requires RefundPending(db, c) && Targeted(db, c, targets)
  {
    var id, p := db.calls[c].id, db.calls[c].paid;
    if WriteFails(db, c, stripeId) then None
    else
      var r := db.rmas[id];
      var restocked := End(db, c).(ledger := Restock(db.ledger, r.lines, targets, ReturnRef(id)),
                                   rmas := db.rmas[id := r.(status := ReturnRefunded)]);
      Some(match p
           case None => restocked
           case Some(p) =>
             restocked.(
               refunds := db.refunds + [Refund(r.order, p.intent, Amount(r.lines), stripeId)],
               orders := db.orders[r.order := db.orders[r.order].(financial :=
                 if Amount(r.lines) >= p.amountCents then FullyRefunded else PartiallyRefunded)]))
  }

  /** The second transaction of a refund call. */
  function CommitRefund(db: Db, c: nat, stripeId: Option<string>, targets: seq<Option<nat>>): Db
    requires Targeted(db, c, targets)
  {
    if RefundPending(db, c) then OrElse(WriteRefund(db, c, stripeId, targets), End(db, c)) else db
  }

  /** The second transaction of a decision; the status is overwritten whatever it is by now. */
  function CommitDecision(db: Db, c: nat): Db {
    if !DecisionPending(db, c) then db
    else
      var id, status := db.calls[c].id, if db.calls[c].approve then Approved else Rejected;
      if id in db.rmas then End(db, c).(rmas := db.rmas[id := db.rmas[id].(status := status)]) else End(db, c)
  }

  datatype Label =
    | Deliver(eventId: string, ev: Event, crash: Crash, answers: seq<Read>)
    | MarkerExpires(marker: string)
    | PlaceOrder(newOrder: string, lines: seq<Line>, totalCents: int, feeCents: int, sessionIntent: Option<string>)
    | OpenCart(token: string)
    | AdminRefund(order: string, payment: Captured, amount: int, stripeId: string)
    | RequestReturn(newReturn: string, returned: string, returnLines: seq<Line>)
    | BeginDecision(decided: string, approve: bool)
    | FinishDecision(decision: nat)
    | BeginRefund(refunded: string, paid: Option<Captured>)
    | FinishRefund(refund: nat, returnStripeId: Option<string>, targets: seq<Option<nat>>)
    | DropCall(dropped: nat)
    | NewStock(variant: string, location: string, onHand: nat)
    | AdjustStock(adjusted: string, at: string, delta: int, kind: MoveKind, seen: int)

  /** One transaction. A label whose queries could not have been answered that way is no step. */
  function Step(db: Db, l: Label): Db {
    match l
    case Deliver(id, ev, crash, answers) =>
      if Answered(db, ev, answers) then Process(db, id, ev, crash, answers) else db
    case MarkerExpires(id) => db.(done := db.done - {id})
    case PlaceOrder(id, lines, total, fee, intent) =>
      if id in db.orders || IntentTaken(db.orders, id, intent) then db
      else db.(orders := db.orders[id := Order(lines, OrderPending, Unpaid, total, 0, fee, intent, false)])
    case OpenCart(token) => if token in db.carts then db else db.(carts := db.carts[token := None])
    case AdminRefund(order, p, amount, stripeId) => OrElse(CommitAdminRefund(db, order, p, amount, stripeId), db)
    case RequestReturn(id, order, lines) =>
      if id in db.rmas || order !in db.orders then db
      else db.(rmas := db.rmas[id := Return(order, Requested, lines)])
    case BeginDecision(id, approve) => CheckDecision(db, id, approve)
    case FinishDecision(c) => CommitDecision(db, c)
    case BeginRefund(id, p) => CheckRefund(db, id, p)
    case FinishRefund(c, stripeId, targets) =>
      if Targeted(db, c, targets) then CommitRefund(db, c, stripeId, targets) else db
    case DropCall(c) => if c < |db.calls| then End(db, c) else db
    case NewStock(v, loc, onHand) =>
      var r := Create(db.ledger, v, loc, onHand);
      if r.Ok? then db.(ledger := r.value) else db
    case AdjustStock(v, loc, delta, kind, seen) =>
      var r := Adjust(db.ledger, v, loc, delta, kind, seen);
      if r.Ok? then db.(ledger := r.value) else db
  }

  function Run(db: Db, ls: seq<Label>): Db
    decreases |ls|
  {
    if ls == [] then db else Run(Step(db, ls[0]), ls[1..])
  }

  lemma {:induction false} RunCons(db: Db, l: Label, ls: seq<Label>)
    ensures Run(db, [l] + ls) == Run(Step(db, l), ls)
  {
    hide Step;
    assert ([l] + ls)[1..] == ls;
  }

  // ----- What every transaction keeps --------------------------------------------------

  /** A paid order was placed; a placed order is paid or refunded; FinPaid never outlives OrderPaid. */
  predicate OrderOk(o: Order) {
    && (o.financial == FinPaid ==> o.status == OrderPaid)
    && (o.status == OrderPaid ==> o.placed)
    && (o.placed ==> o.status == OrderPaid || o.status == OrderRefunded)
  }

  ghost predicate OnePaymentPerIntent(payments: seq<Payment>) {
    forall i, j :: 0 <= i < j < |payments| ==> payments[i].intent != payments[j].intent
  }

  ghost predicate OneRowPerRefund(refunds: seq<Refund>) {
    forall i, j :: 0 <= i < j < |refunds| && refunds[i].stripeId.Some? ==> refunds[i].stripeId != refunds[j].stripeId
  }

  ghost predicate OneOrderPerIntent(orders: map<string, Order>) {
    forall a, b :: a in orders && b in orders && a != b && orders[a].intent.Some? ==>
      orders[a].intent != orders[b].intent
  }

  ghost predicate OneCartPerOrder(carts: map<string, Option<string>>) {
    forall a, b :: a in carts && b in carts && a != b && carts[a].Some? ==> carts[a] != carts[b]
  }

  ghost predicate Inv(db: Db) {
    && Conserved(db.ledger)
    && (forall id :: id in db.orders ==> OrderOk(db.orders[id]))
    && OnePaymentPerIntent(db.payments)
    && (forall i :: 0 <= i < |db.payments| ==> db.payments[i].order in db.orders)
    && OneRowPerRefund(db.refunds)
    && OneOrderPerIntent(db.orders)
    && OneCartPerOrder(db.carts)
    && (forall id :: id in db.rmas ==> db.rmas[id].order in db.orders)
  }

  lemma {:induction false} AddRefundsDistinct(rows: seq<Refund>, order: string, intent: string,
                                              snapshot: seq<StripeRefund>)
    requires OneRowPerRefund(rows)
    ensures OneRowPerRefund(AddRefunds(rows, order, intent, snapshot))
    decreases |snapshot|
  {
    if snapshot != [] {
      var next := if RefundExists(rows, snapshot[0].id) then rows
                  else rows + [Refund(order, intent, snapshot[0].amount, Some(snapshot[0].id))];
      AddRefundsDistinct(next, order, intent, snapshot[1..]);
    }
  }

  lemma {:induction false} UpsertPaidOk(payments: seq<Payment>, intent: string, order: string, paid: int, fee: int)
    requires OnePaymentPerIntent(payments)
    ensures OnePaymentPerIntent(UpsertPaid(payments, intent, order, paid, fee))
  {
  }

  lemma {:induction false} PaidOrdersOk(orders: map<string, Order>, id: string, paid: int, tax: int,
                                        intent: Option<string>)
    requires id in orders && OneOrderPerIntent(orders) && !IntentTaken(orders, id, intent)
    requires forall k :: k in orders ==> OrderOk(orders[k])
    ensures var after := orders[id := MarkPaid(orders[id], paid, tax, intent)];
            OneOrderPerIntent(after) && forall k :: k in after ==> OrderOk(after[k])
  {
  }

  lemma {:induction false} ConvertedCartsOk(carts: map<string, Option<string>>, cart: Option<string>, order: string)
    requires OneCartPerOrder(carts) && !ConversionTaken(carts, cart, order)
    ensures OneCartPerOrder(ConvertCart(carts, cart, order))
  {
  }

  lemma {:induction false} CompletedKeepsInv(db: Db, ev: Event, answers: seq<Read>)
    requires Inv(db) && ev.CheckoutCompleted? && Answered(db, ev, answers)
    requires OnCheckoutCompleted(db, ev, answers).Some?
    ensures Inv(OnCheckoutCompleted(db, ev, answers).value)
  {
    if Completes(db, ev) {
      var id := ev.order.value;
      var o := db.orders[id];
      var paid := if ev.amountTotal.Some? then ev.amountTotal.value else o.totalCents;
      SellLinesBounded(db.ledger, o.lines, answers, OrderRef(id));
      PaidOrdersOk(db.orders, id, paid, ev.amountTax, ev.intent);
      ConvertedCartsOk(db.carts, ev.cart, id);
      if ev.intent.Some? {
        UpsertPaidOk(db.payments, ev.intent.value, id, paid, o.feeCents);
      }
      hide Conserved, OneOrderPerIntent, OnePaymentPerIntent, OneRowPerRefund, OneCartPerOrder, OrderOk,
           MarkPaid, ConvertCart, IntentTaken, ConversionTaken, SellLines, ReadsOk;
    }
  }

  lemma {:induction false} FailedKeepsInv(db: Db, ev: Event)
    requires Inv(db) && ev.IntentFailed?
    ensures Inv(OnPaymentFailed(db, ev))
  {
  }

  lemma {:induction false} RefundedKeepsInv(db: Db, ev: Event)
    requires Inv(db) && ev.ChargeRefunded? && OnChargeRefunded(db, ev).Some?
    ensures Inv(OnChargeRefunded(db, ev).value)
  {
    if ev.chargeIntent.Some? {
      var i := FindPayment(db.payments, ev.chargeIntent.value);
      if i < |db.payments| {
        AddRefundsDistinct(db.refunds, db.payments[i].order, db.payments[i].intent, ev.refunds);
      }
    }
  }

  lemma {:induction false} AdminRefundKeepsInv(db: Db, order: string, p: Captured, amount: int, stripeId: string)
    requires Inv(db) && CommitAdminRefund(db, order, p, amount, stripeId).Some?
    ensures Inv(CommitAdminRefund(db, order, p, amount, stripeId).value)
  {
    hide Conserved, OneCartPerOrder;
  }

  lemma {:induction false} ReturnRefundKeepsInv(db: Db, c: nat, stripeId: Option<string>, targets: seq<Option<nat>>)
    requires Inv(db) && RefundPending(db, c) && Targeted(db, c, targets)
    requires WriteRefund(db, c, stripeId, targets).Some?
    ensures Inv(WriteRefund(db, c, stripeId, targets).value)
  {
    var id := db.calls[c].id;
    RestockExact(db.ledger, db.rmas[id].lines, targets, ReturnRef(id));
    hide Conserved, Restock, TargetsOk, OneCartPerOrder, Amount;
  }

  lemma {:induction false} DeliverKeepsInv(db: Db, id: string, ev: Event, crash: Crash, answers: seq<Read>)
    requires Inv(db) && Answered(db, ev, answers)
    ensures Inv(Process(db, id, ev, crash, answers))
  {
    match ev {
      case CheckoutCompleted(_, _, _, _, _) =>
        if OnCheckoutCompleted(db, ev, answers).Some? { CompletedKeepsInv(db, ev, answers); }
      case IntentFailed(_, _) => FailedKeepsInv(db, ev);
      case ChargeRefunded(_, _) =>
        if OnChargeRefunded(db, ev).Some? { RefundedKeepsInv(db, ev); }
      case Unhandled =>
    }
    hide OnCheckoutCompleted, OnPaymentFailed, OnChargeRefunded, Answered;
  }

  lemma {:induction false} StockKeepsInv(db: Db, ledger: Ledger)
    requires Inv(db) && Conserved(ledger)
    ensures Inv(db.(ledger := ledger))
  {
  }

  /** Every transaction, whatever its queries answered and wherever the worker dies, keeps the invariant. */
  /** The steps that write neither stock nor refunds. */
  lemma {:induction false} PlainStepKeepsInv(db: Db, l: Label)
    requires Inv(db) && !l.Deliver? && !l.AdminRefund? && !l.FinishRefund? && !l.NewStock? && !l.AdjustStock?
    ensures Inv(Step(db, l))
  {
    hide Process, CommitAdminRefund, WriteRefund, Create, Adjust, Conserved, Answered, Targeted, RefundAllowed,
         DecisionAllowed, OnePaymentPerIntent, OneRowPerRefund;
  }

  lemma {:induction false} StepKeepsInv(db: Db, l: Label)
    requires Inv(db)
    ensures Inv(Step(db, l))
  {
    hide Process, CommitAdminRefund, WriteRefund, Create, Adjust, Conserved, Answered, Targeted, RefundAllowed,
         DecisionAllowed, OnePaymentPerIntent, OneRowPerRefund, OneOrderPerIntent, OneCartPerOrder;
    match l {
      case Deliver(id, ev, crash, answers) =>
        if Answered(db, ev, answers) { DeliverKeepsInv(db, id, ev, crash, answers); }
      case AdminRefund(order, p, amount, stripeId) =>
        if CommitAdminRefund(db, order, p, amount, stripeId).Some? {
          AdminRefundKeepsInv(db, order, p, amount, stripeId);
        }
      case FinishRefund(c, stripeId, targets) =>
        if Targeted(db, c, targets) && RefundPending(db, c) && WriteRefund(db, c, stripeId, targets).Some? {
          ReturnRefundKeepsInv(db, c, stripeId, targets);
        }
      case NewStock(v, loc, onHand) =>
        if Create(db.ledger, v, loc, onHand).Ok? {
          CreateConserves(db.ledger, v, loc, onHand);
          StockKeepsInv(db, Create(db.ledger, v, loc, onHand).value);
        }
      case AdjustStock(v, loc, delta, kind, seen) =>
        if Adjust(db.ledger, v, loc, delta, kind, seen).Ok? {
          AdjustConserves(db.ledger, v, loc, delta, kind, seen);
          StockKeepsInv(db, Adjust(db.ledger, v, loc, delta, kind, seen).value);
        }
      case _ => PlainStepKeepsInv(db, l);
    }
  }

  lemma {:induction false} RunKeepsInv(db: Db, ls: seq<Label>)
    requires Inv(db)
    ensures Inv(Run(db, ls))
    decreases |ls|
  {
    if ls != [] {
      StepKeepsInv(db, ls[0]);
      RunKeepsInv(Step(db, ls[0]), ls[1..]);
    }
  }

  /**
   In every reachable state, however outdated the levels were that sales and adjustments
   decided on: on-hand levels equal the sum of their movements, there is one payment per
   intent and one row per Stripe refund, and no order is the conversion of two carts.
   */
  lemma {:induction false} ReachableInv(ls: seq<Label>)
    ensures Inv(Run(EMPTY, ls))
  {
    RunKeepsInv(EMPTY, ls);
  }
}
