/** Payments (billing/models.py `Payment`) and the three checkout views of
    billing/views.py: the address step of `checkout_summary`, the line items
    and Payment row of `create_checkout_session`, and the status updates of
    `stripe_webhook`. Stripe itself is outside the model: what a Stripe call
    returns arrives as a parameter, `None` standing for the call raising. */
module Checkout {
  import opened Common
  import opened Money
  import opened Carts
  import opened Session

  /** `Payment.Status`, plus the "refunded" the code writes although it is
      not among the declared choices. */
  datatype Status =
    | RequiresPaymentMethod
    | RequiresConfirmation
    | RequiresAction
    | Processing
    | Succeeded
    | Canceled
    | Refunded

  datatype Payment = Payment(
    id: nat,
    user: nat,
    amount: int,
    intentId: Option<string>,
    checkoutSessionId: Option<string>,
    status: Status,
    metadata: map<string, string>)

  // ---------------------------------------------------------------------------
  // Payment.refund
  // ---------------------------------------------------------------------------

  datatype RefundError = NoPaymentIntent | StripeFailed

  datatype RefundOutcome = RefundOutcome(payment: Payment, error: Option<RefundError>)

  /** `Payment.refund`: without a payment-intent id it raises before calling
      Stripe; otherwise Stripe's refund (its id, or `None` when the call
      raises) decides. A refund that goes through marks the payment
      refunded and records the refund id in its metadata. */
  function Refund(p: Payment, stripeRefund: Option<string>): (r: RefundOutcome)
    ensures !Truthy(p.intentId) ==> r == RefundOutcome(p, Some(NoPaymentIntent))
    ensures r.error.Some? ==> r.payment == p
    ensures r.error.None? <==> Truthy(p.intentId) && stripeRefund.Some?
    ensures r.error.None? ==>
              && r.payment.status == Refunded
              && r.payment.metadata == p.metadata["refund_id" := stripeRefund.value]
              && r.payment.(status := p.status, metadata := p.metadata) == p
  {
    if !Truthy(p.intentId) then RefundOutcome(p, Some(NoPaymentIntent))
    else
      match stripeRefund
      case None => RefundOutcome(p, Some(StripeFailed))
      case Some(refundId) =>
        RefundOutcome(p.(status := Refunded, metadata := p.metadata["refund_id" := refundId]), None)
  }

  // ---------------------------------------------------------------------------
  // create_checkout_session
  // ---------------------------------------------------------------------------

  /** One entry of `line_items`: product name, `unit_amount` in cents and
      quantity. */
  datatype LineItem = LineItem(name: string, unitAmount: int, quantity: nat)

  datatype CheckoutOutcome =
    | EmptyCart
    | StripeError(lines: seq<LineItem>)
    | Created(lines: seq<LineItem>, payment: Payment)

  /** The amount Stripe charges for the line items. */
  function LinesTotal(lines: seq<LineItem>): int {
    if lines == [] then 0 else lines[0].unitAmount * lines[0].quantity + LinesTotal(lines[1..])
  }

  /** The line items for a subtotal and a tax, both in cents: the subtotal
      always, the tax only when it is positive. */
  function CheckoutLines(subtotal: int, tax: int): (lines: seq<LineItem>)
    ensures |lines| >= 1 && lines[0] == LineItem("Selected Services", subtotal, 1)
    ensures |lines| == 2 <==> tax > 0
    ensures |lines| == 2 ==> lines[1] == LineItem("Sales Tax", tax, 1)
    ensures |lines| <= 2
  {
    [LineItem("Selected Services", subtotal, 1)]
    + (if tax > 0 then [LineItem("Sales Tax", tax, 1)] else [])
  }

  /** `(subtotal + tax).quantize(Decimal("0.01"))` in cents, which is exact. */
  function CheckoutTotal(subtotal: int, tax: int): (r: int)
    ensures r == subtotal + tax
  {
    QuantizeCentsExact(subtotal + tax);
    QuantizeCents(Dec(subtotal + tax, 2))
  }

  /** `create_checkout_session`: the user's most recent cart (`None` when
      the user has none) must have items; the tax uses core.constants'
      rate; Stripe's answer is the new session id or `None`; only after
      Stripe accepts is a Payment created, for the total, in status
      processing and with no payment-intent id yet. */
  function CreateCheckoutSession(cart: Option<Cart>, rate: Dec, user: nat, paymentId: nat, stripeSession: Option<string>): (r: CheckoutOutcome)
    ensures r == EmptyCart <==> cart.None? || cart.value.items == []
    ensures r.Created? ==> stripeSession.Some?
    ensures r.StripeError? <==> !(cart.None? || cart.value.items == []) && stripeSession.None?
    ensures !r.EmptyCart? ==>
              var subtotal := Subtotal(cart.value);
              var tax := ApplyRate(subtotal, rate);
              && 1 <= |r.lines| <= 2
              && r.lines[0] == LineItem("Selected Services", subtotal, 1)
              && (|r.lines| == 2 <==> tax > 0)
    ensures r.Created? ==>
              && r.payment.amount == Subtotal(cart.value) + ApplyRate(Subtotal(cart.value), rate)
              && r.payment.status == Processing
              && r.payment.intentId == None
              && r.payment.checkoutSessionId == stripeSession
              && r.payment.user == user
  {
    if cart.None? || cart.value.items == [] then EmptyCart
    else
      var subtotal := Subtotal(cart.value);
      var tax := ApplyRate(subtotal, rate);
      var total := CheckoutTotal(subtotal, tax);
      var lines := CheckoutLines(subtotal, tax);
      match stripeSession
      case None => StripeError(lines)
      case Some(sessionId) =>
        Created(lines, Payment(paymentId, user, total, None, Some(sessionId), Processing, map[]))
  }

  /** What Stripe is asked to charge equals the Payment's amount exactly
      when the tax is not negative (a negative tax is left off the line
      items but not off the total); with non-negative prices and rate the
      two always agree. */
  lemma CheckoutAmountMatchesLines(cart: Option<Cart>, rate: Dec, user: nat, paymentId: nat, stripeSession: Option<string>)
    ensures var r := CreateCheckoutSession(cart, rate, user, paymentId, stripeSession);
            r.Created? ==>
              && (r.payment.amount == LinesTotal(r.lines) <==> ApplyRate(Subtotal(cart.value), rate) >= 0)
              && (PricesNonNegative(cart.value.items) && rate.units >= 0 ==> r.payment.amount == LinesTotal(r.lines))
  {
    var r := CreateCheckoutSession(cart, rate, user, paymentId, stripeSession);
    if r.Created? {
      var subtotal := Subtotal(cart.value);
      var tax := ApplyRate(subtotal, rate);
      if tax > 0 {
        assert r.lines[1..][1..] == [];
        assert LinesTotal(r.lines[1..][1..]) == 0;
        assert LinesTotal(r.lines) == subtotal + tax;
      } else {
        assert r.lines[1..] == [];
        assert LinesTotal(r.lines[1..]) == 0;
        assert LinesTotal(r.lines) == subtotal;
      }
    }
  }

  // ---------------------------------------------------------------------------
  // stripe_webhook
  // ---------------------------------------------------------------------------

  /** The part of a Stripe event the webhook reads: its type, the event
      object's `id`, and the object's `payment_intent` (absent on events
      that carry none). */
  datatype Event = Event(kind: string, objectId: string, paymentIntent: Option<string>)

  /** Which `stripe_payment_intent_id` value an event's filter asks for,
      and the status it sets; `None` for an event the webhook ignores. */
  function EventUpdate(e: Event): (r: Option<(Option<string>, Status)>)
    ensures e.kind == "payment_intent.succeeded" ==> r == Some((Some(e.objectId), Succeeded))
    ensures e.kind == "charge.refunded" ==> r == Some((e.paymentIntent, Refunded))
    ensures e.kind == "payment_intent.payment_failed" ==> r == Some((Some(e.objectId), Canceled))
    ensures r.None? <==> e.kind !in {"payment_intent.succeeded", "charge.refunded", "payment_intent.payment_failed"}
  {
    if e.kind == "payment_intent.succeeded" then Some((Some(e.objectId), Succeeded))
    else if e.kind == "charge.refunded" then Some((e.paymentIntent, Refunded))
    else if e.kind == "payment_intent.payment_failed" then Some((Some(e.objectId), Canceled))
    else None
  }

  /** `Payment.objects.filter(stripe_payment_intent_id=target).update(status=s)`.
      A `None` target is Django's `IS NULL` test, so it matches every
      payment that has no payment-intent id. */
  function UpdateWhere(payments: seq<Payment>, target: Option<string>, s: Status): (r: seq<Payment>)
    ensures |r| == |payments|
    ensures forall i :: 0 <= i < |payments| ==>
              r[i] == if payments[i].intentId == target then payments[i].(status := s) else payments[i]
  {
    if payments == [] then []
    else
      [if payments[0].intentId == target then payments[0].(status := s) else payments[0]]
      + UpdateWhere(payments[1..], target, s)
  }

  /** `stripe_webhook` as written: a `charge.refunded` event without a
      `payment_intent` filters on `None`. */
  function WebhookAsWritten(payments: seq<Payment>, e: Event): (r: seq<Payment>)
    ensures |r| == |payments|
    ensures EventUpdate(e).None? ==> r == payments
    ensures forall i :: 0 <= i < |payments| ==>
              && r[i].(status := payments[i].status) == payments[i]
              && (r[i] != payments[i] ==> EventUpdate(e).Some? && payments[i].intentId == EventUpdate(e).value.0)
  {
    match EventUpdate(e)
    case None => payments
    case Some((target, s)) => UpdateWhere(payments, target, s)
  }

  /** `stripe_webhook` as evidently intended: an event that names no
      payment intent updates nothing. */
  function Webhook(payments: seq<Payment>, e: Event): (r: seq<Payment>)
    ensures |r| == |payments|
    ensures EventUpdate(e).None? ==> r == payments
    ensures forall i :: 0 <= i < |payments| ==>
              && r[i].(status := payments[i].status) == payments[i]
              && (r[i] != payments[i] ==>
                    EventUpdate(e).Some? && EventUpdate(e).value.0.Some? && payments[i].intentId == EventUpdate(e).value.0)
  {
    match EventUpdate(e)
    case None => payments
    case Some((target, s)) => if target.None? then payments else UpdateWhere(payments, target, s)
  }

  /** Each of the three events sets its status on exactly the payments
      whose intent id it names, and leaves every other payment alone. */
  lemma WebhookStatusMapping(payments: seq<Payment>, e: Event, i: nat)
    requires i < |payments|
    ensures var r := Webhook(payments, e);
            && (e.kind == "payment_intent.succeeded" ==>
                  r[i] == if payments[i].intentId == Some(e.objectId) then payments[i].(status := Succeeded) else payments[i])
            && (e.kind == "payment_intent.payment_failed" ==>
                  r[i] == if payments[i].intentId == Some(e.objectId) then payments[i].(status := Canceled) else payments[i])
            && (e.kind == "charge.refunded" && e.paymentIntent.Some? ==>
                  r[i] == if payments[i].intentId == e.paymentIntent then payments[i].(status := Refunded) else payments[i])
            && (e.kind == "charge.refunded" && e.paymentIntent.None? ==> r[i] == payments[i])
  {
  }

  /** The two versions differ only on a refund event without a payment
      intent. */
  lemma WebhookAgreesWhenIntentNamed(payments: seq<Payment>, e: Event)
    requires !(e.kind == "charge.refunded" && e.paymentIntent.None?)
    ensures WebhookAsWritten(payments, e) == Webhook(payments, e)
  {
  }

  /** The input that shows the difference: a fresh Payment (no intent id
      yet, status processing) and a `charge.refunded` event whose charge has
      no `payment_intent`. The code as written marks the payment refunded. */
  lemma RefundEventWithoutIntentAsWritten()
    ensures var p := Payment(1, 1, 5000, None, Some("cs_1"), Processing, map[]);
            var e := Event("charge.refunded", "ch_1", None);
            && WebhookAsWritten([p], e) == [p.(status := Refunded)]
            && Webhook([p], e) == [p]
  {
    var p := Payment(1, 1, 5000, None, Some("cs_1"), Processing, map[]);
    var e := Event("charge.refunded", "ch_1", None);
    assert EventUpdate(e) == Some((None, Refunded));
    assert UpdateWhere([p], None, Refunded)[0] == p.(status := Refunded);
  }

  /** Every Payment `create_checkout_session` makes has no intent id, so
      the code as written would mark it refunded on such an event. */
  lemma NewPaymentsHitByIntentlessRefund(cart: Option<Cart>, rate: Dec, user: nat, paymentId: nat,
                                         stripeSession: Option<string>, e: Event)
    requires e.kind == "charge.refunded" && e.paymentIntent.None?
    ensures var r := CreateCheckoutSession(cart, rate, user, paymentId, stripeSession);
            r.Created? ==>
              && WebhookAsWritten([r.payment], e)[0].status == Refunded
              && Webhook([r.payment], e)[0] == r.payment
  {
  }

  // ---------------------------------------------------------------------------
  // checkout_summary: address defaults
  // ---------------------------------------------------------------------------

  /** The address fields of the user's `RegisteredCustomer`. */
  datatype Profile = Profile(street: string, city: string, state: string, zipcode: string)

  datatype SummaryOutcome =
    | RedirectToSearch
    | RedirectToCompleteProfile
    | ShowSummary(session: Session, serviceAddress: Option<string>, billingAddress: Option<string>)

  /** `f"{street}, {city}, {state} {zipcode}"`. */
  function FullAddress(p: Profile): string {
    p.street + ", " + p.city + ", " + p.state + " " + p.zipcode
  }

  predicate ProfileComplete(p: Profile) {
    p.street != [] && p.city != [] && p.state != [] && p.zipcode != []
  }

  /** Python's `a or b` on an optional string. */
  function OrElse(a: Option<string>, b: string): (r: string)
    ensures Truthy(a) ==> r == a.value
    ensures !Truthy(a) ==> r == b
  {
    if Truthy(a) then a.value else b
  }

  /** `checkout_summary` up to the form: an empty cart goes back to the
      search; when either session address is missing, a complete profile
      (`None` when the user has no `RegisteredCustomer`) fills the missing
      ones from its full address, and anything else goes to the profile
      page. */
  function CheckoutSummary(hasItems: bool, s: Session, profile: Option<Profile>): (r: SummaryOutcome)
    ensures !hasItems ==> r == RedirectToSearch
    ensures hasItems && Truthy(s.serviceAddress) && Truthy(s.billingAddress) ==>
              r == ShowSummary(s, s.serviceAddress, s.billingAddress)
    ensures r == RedirectToCompleteProfile <==>
              hasItems && !(Truthy(s.serviceAddress) && Truthy(s.billingAddress))
              && (profile.None? || !ProfileComplete(profile.value))
    ensures r.ShowSummary? ==>
              && r.session.serviceAddress == r.serviceAddress && r.session.billingAddress == r.billingAddress
              && Truthy(r.serviceAddress) == (Truthy(s.serviceAddress) || profile.Some?)
  {
    if !hasItems then RedirectToSearch
    else if Truthy(s.serviceAddress) && Truthy(s.billingAddress) then ShowSummary(s, s.serviceAddress, s.billingAddress)
    else
      match profile
      case None => RedirectToCompleteProfile
      case Some(p) =>
        if !ProfileComplete(p) then RedirectToCompleteProfile
        else
          var full := FullAddress(p);
          var service := OrElse(s.serviceAddress, full);
          var billing := OrElse(s.billingAddress, full);
          ShowSummary(Session(Some(service), Some(billing)), Some(service), Some(billing))
  }

  /** An address already in the session is never overwritten, a missing
      one is filled with the profile's full address, and after the step
      both addresses are set. */
  lemma SummaryKeepsExistingAddresses(hasItems: bool, s: Session, profile: Option<Profile>)
    ensures var r := CheckoutSummary(hasItems, s, profile);
            r.ShowSummary? ==>
              && (Truthy(s.serviceAddress) ==> r.serviceAddress == s.serviceAddress)
              && (Truthy(s.billingAddress) ==> r.billingAddress == s.billingAddress)
              && (!Truthy(s.serviceAddress) ==> r.serviceAddress == Some(FullAddress(profile.value)))
              && (!Truthy(s.billingAddress) ==> r.billingAddress == Some(FullAddress(profile.value)))
              && Truthy(r.session.serviceAddress) && Truthy(r.session.billingAddress)
  {
    var r := CheckoutSummary(hasItems, s, profile);
    if r.ShowSummary? && !(Truthy(s.serviceAddress) && Truthy(s.billingAddress)) {
      assert |FullAddress(profile.value)| > 0;
    }
  }
}
