/** core/models.py's `Address.__str__` and `NewsletterSubscription.save`,
    and the monthly-newsletter command: select the subscriptions that are
    due, try to mail each, and move every one that was mailed to the first
    of next month. Mail delivery and token generation are parameters. */
module Newsletter {
  import opened Common
  import opened Dates

  // ---------------------------------------------------------------------------
  // Address.__str__
  // ---------------------------------------------------------------------------

  datatype Address = Address(tag: string, line1: string, city: string)

  /** The text `label • line1, city`, or `line1, city` when the label (`tag` here) is empty. */
  function AddressText(a: Address): (r: string)
    ensures EndsWith(r, a.line1 + ", " + a.city)
    ensures a.tag == [] ==> r == a.line1 + ", " + a.city
    ensures a.tag != [] ==> |r| == |a.tag| + 3 + |a.line1| + 2 + |a.city| && r[..|a.tag|] == a.tag && r[|a.tag|..|a.tag| + 3] == " • "
  {
    var base := a.line1 + ", " + a.city;
    if a.tag != [] then
      var r := a.tag + " • " + base;
      assert r[|r| - |base|..] == base;
      assert r[..|a.tag|] == a.tag;
      r
    else base
  }

  // ---------------------------------------------------------------------------
  // NewsletterSubscription
  // ---------------------------------------------------------------------------

  datatype Subscription = Subscription(id: nat, nextSendOn: CalendarDate, unsubscribed: bool, token: string)

  /** `NewsletterSubscription.save`: an empty token is replaced by a fresh
      one (`secrets.token_hex(16)`, given here as `newToken`); a set token is
      never touched. */
  function SaveSubscription(s: Subscription, newToken: string): (r: Subscription)
    ensures s.token != [] ==> r == s
    ensures s.token == [] ==> r == s.(token := newToken)
  {
    if s.token == [] then s.(token := newToken) else s
  }

  /** Once saved with a non-empty new token, later saves keep that token
      whatever new token they are offered. */
  lemma SaveKeepsToken(s: Subscription, token1: string, token2: string)
    requires token1 != []
    ensures SaveSubscription(SaveSubscription(s, token1), token2) == SaveSubscription(s, token1)
    ensures SaveSubscription(s, token1).token != []
  {
  }

  // ---------------------------------------------------------------------------
  // send_monthly_newsletter
  // ---------------------------------------------------------------------------

  /** The command's filter: subscribed, and due on or before today. */
  predicate Due(s: Subscription, today: CalendarDate) {
    !s.unsubscribed && AtOrBefore(s.nextSendOn, today)
  }

  /** The subscriptions the command selects, in table order. */
  function Selected(subs: seq<Subscription>, today: CalendarDate): (r: seq<Subscription>)
    ensures forall s :: s in r <==> s in subs && Due(s, today)
    ensures |r| <= |subs|
    ensures (forall s :: s in subs ==> !Due(s, today)) ==> r == []
  {
    if subs == [] then []
    else (if Due(subs[0], today) then [subs[0]] else []) + Selected(subs[1..], today)
  }

  /** The effect of the command on one subscription, given whether its mail
      went out. */
  function Advance(s: Subscription, today: CalendarDate, delivered: bool): Subscription {
    if Due(s, today) && delivered then s.(nextSendOn := FirstDayNextMonth(today)) else s
  }

  /** How many selected subscriptions were mailed. */
  function CountSent(subs: seq<Subscription>, today: CalendarDate, delivered: Subscription -> bool): nat {
    if subs == [] then 0
    else (if Due(subs[0], today) && delivered(subs[0]) then 1 else 0) + CountSent(subs[1..], today, delivered)
  }

  /** One run of the command. `delivered(s)` says whether `send_mail` for
      `s` returned normally. A mailed subscription moves to the first day
      of next month; a failure leaves it as it was; `sent` counts the mails
      that went out. */
  method SendMonthlyNewsletter(subs: seq<Subscription>, today: CalendarDate, delivered: Subscription -> bool)
    returns (after: seq<Subscription>, sent: nat)
    ensures |after| == |subs|
    ensures forall i :: 0 <= i < |subs| ==> after[i] == Advance(subs[i], today, delivered(subs[i]))
    ensures sent == CountSent(subs, today, delivered)
    ensures sent <= |Selected(subs, today)|
  {
    after := [];
    sent := 0;
    var i := 0;
    while i < |subs|
      invariant 0 <= i <= |subs|
      invariant |after| == i
      invariant forall j :: 0 <= j < i ==> after[j] == Advance(subs[j], today, delivered(subs[j]))
      invariant sent + CountSent(subs[i..], today, delivered) == CountSent(subs, today, delivered)
    {
      var sub := subs[i];
      assert subs[i..][1..] == subs[i + 1..];
      if Due(sub, today) && delivered(sub) {
        sent := sent + 1;
        after := after + [sub.(nextSendOn := FirstDayNextMonth(today))];
      } else {
        after := after + [sub];
      }
      i := i + 1;
    }
    CountSentAtMostSelected(subs, today, delivered);
  }

  lemma {:induction false} CountSentAtMostSelected(subs: seq<Subscription>, today: CalendarDate, delivered: Subscription -> bool)
    ensures CountSent(subs, today, delivered) <= |Selected(subs, today)|
  {
    if subs != [] {
      CountSentAtMostSelected(subs[1..], today, delivered);
    }
  }

  /** A mailed subscription's next date is strictly after today, so the
      mailing is not repeated the same day. */
  lemma AdvancedNotDueToday(s: Subscription, today: CalendarDate)
    requires Due(s, today)
    ensures Advance(s, today, true).nextSendOn == FirstDayNextMonth(today)
    ensures !Due(Advance(s, today, true), today)
  {
    BeforeIrreflexive(today);
    var n := FirstDayNextMonth(today);
    if AtOrBefore(n, today) {
      BeforeTransitive(today, n, today);
    }
  }

  /** When every mail goes out, a second run the same day selects nothing. */
  lemma SecondRunSelectsNothing(subs: seq<Subscription>, today: CalendarDate, delivered: Subscription -> bool,
                                after: seq<Subscription>)
    requires forall s :: s in subs && Due(s, today) ==> delivered(s)
    requires |after| == |subs|
    requires forall i :: 0 <= i < |subs| ==> after[i] == Advance(subs[i], today, delivered(subs[i]))
    ensures Selected(after, today) == []
  {
    forall s | s in after ensures !Due(s, today) {
      var i :| 0 <= i < |after| && after[i] == s;
      if Due(subs[i], today) {
        assert subs[i] in subs;
        AdvancedNotDueToday(subs[i], today);
      }
    }
  }
}
