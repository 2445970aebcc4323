# Tucker & Dale's home services: booking and pricing core in Dafny

This project models the logic behind booking a home-service worker and paying for the booking. It covers:

- **Availability rule.** Which employees of a service category can take a job at a customer's address on a given date and time slot. Both copies of the rule are modelled: the `all(...)` version and the loop-with-`break` version.
- **Scheduling records.** An employee's current location, the default jobsite of an assignment, and the one-assignment-per-(employee, booking) constraint.
- **Session service address.** Locking it and enforcing it in the two searches. Also the shapes of the two search grids: by date (slot → category → employees) and by slot (28 days → category → offers).
- **The cart.**
  - Adding, re-adding, removing and clearing items, keyed by (employee, category, slot, date).
  - The unit price: twice the base rate, rounded to cents.
  - Subtotal, tax rounded half-to-even to cents, and total. All money is in integer cents.
  - How carts are found per owner and locked address.
- **Payments and checkout.**
  - `Payment.refund` and `amount_display`.
  - The line items and the Payment that `create_checkout_session` builds.
  - The Stripe webhook's event-to-status mapping.
  - The address defaults of `checkout_summary`.
- **Navigation-bar cart summary.** The session-dict fold, in both context processors.
- **Newsletter.** `first_day_next_month`, `Address.__str__`, the token guard of `NewsletterSubscription.save`, and one run of the monthly-newsletter command.
- **Customer form validators.** `clean_phone` and `clean_email`.

Modules follow the program's structure:

| module | models |
|---|---|
| `Common` | Python's `strip`, `lower`, `isdigit` and truthiness |
| `Dates` | calendar dates and `%Y-%m-%d` |
| `Money` | `Decimal.quantize` with `ROUND_HALF_EVEN`, and the amount text |
| `Scheduling` | scheduling/models.py |
| `Availability`, `AvailabilityLoop` | the two copies of the rule |
| `Session`, `Search` | address locking and the two searches |
| `Carts` | cart items and prices |
| `CartTables` | how carts are looked up |
| `Checkout` | payments and the checkout views |
| `SessionCart` | the context processors |
| `Newsletter` | core/models.py and the command |
| `Forms` | customers/forms.py |

The environment arrives as parameters, never as I/O:

- **Database tables** are sequences in primary-key order.
- **Session values** are options.
- **Drive time** is a function `(string, string) -> nat`. The shipped 20-minute placeholder is one instance of it.
- **Stripe calls** are given by what they return. `None` stands for the call raising.
- **Mail delivery** is a predicate saying which sends returned normally.
- **Random tokens and today's date** are arguments.

The code was followed wherever it differs from the description of the system:

- **Same-day jobs.** The availability rule checks the drive from *every* job of that day to the customer's address. It does not check only the adjacent legs.
- **Uniqueness.** It is per (employee, booking), not per (employee, date, slot).
- **The refunded status.** `"refunded"` is written to payments although the declared status choices do not include it. `Checkout.Status` has it as a seventh value.
- **The tax line item.** It is omitted when the tax is not positive, but the total still includes the tax.

## Model

| member | source | states |
|---|---|---|
| Common.Trim | scheduling/views.py:46 | `str.strip()`: the result is the input minus a run of whitespace at each end, and it starts and ends with a non-whitespace character unless it is empty. |
| Common.Lower | scheduling/views.py:209 | `str.lower()` on ASCII: same length, each letter mapped to lower case and every other character kept. |
| Scheduling.CurrentLocation | scheduling/models.py:14-25 | With no assignment at that date and slot, the answer is the home address. Otherwise it is the jobsite of the first such assignment. |
| Scheduling.SaveAssignment | scheduling/models.py:64-68 | An empty jobsite becomes the booking's customer address. A non-empty one is kept, and employee and booking never change. |
| Scheduling.InsertAssignment | scheduling/models.py:60-62 | An insert fails with an integrity error exactly when the (employee, booking) pair already exists. Otherwise the saved row is appended. |
| Scheduling.InsertKeepsUnique | scheduling/models.py:60-62 | Inserting keeps every (employee, booking) pair unique. |
| Availability.InCategory | scheduling/availability.py:27 | The category filter keeps exactly the employees of that category and never lengthens the list. |
| Availability.SortBySlotSpec | scheduling/availability.py:37-41 | Ordering the day's jobs by slot id yields a sorted permutation of them. |
| Availability.TodaysJobs | scheduling/availability.py:37-41 | `todays_jobs` holds exactly the employee's assignments on the date, sorted by slot. It is empty iff no assignment falls on that date. |
| Availability.Select | scheduling/availability.py:29-56 | The loop keeps exactly the candidates the rule admits. |
| Availability.AvailableEmployees | scheduling/availability.py:17-58 | An employee is returned iff they are in the category, not assigned at the slot, and either have no jobs that day with home within 30 minutes or have every same-day jobsite within 30 minutes. |
| Availability.BookedNeverAvailable | scheduling/availability.py:31-34 | An employee assigned at the date and slot is never returned, whatever the drive times. |
| Availability.NoJobsDecidedFromHome | scheduling/availability.py:43-47 | With no jobs that day, a category employee is returned iff the drive from home is at most 30 minutes. |
| Availability.JobsDecideFromEveryJobsite | scheduling/availability.py:49-56 | With jobs that day, an unbooked category employee is returned iff every same-day jobsite, earlier or later, is within 30 minutes. |
| Availability.ThresholdInclusive | scheduling/availability.py:45-51 | A drive of exactly 30 minutes qualifies and one of 31 does not. |
| Availability.AvailableIsOrderedSubsequence | scheduling/availability.py:26-58 | The result is a subsequence of the employee list in query order. Every member has the requested category, and it has no duplicate ids when the input has none. |
| Availability.StubOffersEveryUnbooked | scheduling/availability.py:8-58 | With the 20-minute placeholder, the result is exactly the category's employees without a conflict in the slot. |
| AvailabilityLoop.WithinReachOfAll | scheduling/utils.py:34-40 | The loop with `break` reports feasible iff every same-day jobsite is within 30 minutes, the same verdict as `all(...)`. |
| AvailabilityLoop.DecideEmployee | scheduling/utils.py:12-43 | The per-employee body of the loop version keeps an employee exactly when the `all(...)` version's rule admits them. |
| AvailabilityLoop.AvailableEmployeesLoop | scheduling/utils.py:1-45 | The loop version returns the same list as `get_available_employees` of availability.py, for every input and every drive-time function. |
| Session.LockLowered | scheduling/views.py:208-212 | The searches' lock stores and returns the address trimmed and lower-cased, leaving the billing address alone. |
| Session.LockTrimmed | billing/utils.py:11-16 | Locking an empty address changes nothing. A non-empty one is stored trimmed with its case kept. |
| Session.LastNonEmpty | billing/utils.py:13-15 | Finds the last address a lock sequence actually stores. All entries after it are empty, and when it finds none, every entry is empty. |
| Session.LockAllSnoc | billing/utils.py:11-16 | A sequence of locks followed by one more equals that one lock applied to the result. |
| Session.GetReturnsLastLocked | billing/utils.py:6-16 | After any sequence of locks, `get_service_address` returns the last non-empty address locked, trimmed. If every address was empty, it returns what was there before. |
| Search.ResolveSearchAddress | scheduling/views.py:46-60 | An existing lock is kept and the billing address is untouched. Without a lock, the stripped input is locked in lower case and searched as entered. |
| Search.SearchedMatchesLock | scheduling/views.py:48-60 | After the lock step an address is always locked, and the address searched equals it up to case. |
| Search.LockedAddressOverridesInput | scheduling/views.py:53-60 | With an address locked, an input that differs from it other than in case is replaced by the locked address. |
| Search.LockedAddressAcceptsSameAddress | scheduling/views.py:53-60 | With an address locked, an input equal to it up to case is searched as entered. |
| Search.ByDateGrid | scheduling/views.py:63-76 | The by-date grid has one entry per slot, each with one cell per category. |
| Search.ByDateGridCells | scheduling/views.py:63-76 | Each by-date cell lists exactly the category's employees the availability rule admits for that slot, date and address. |
| Search.DayCellsValue | scheduling/views.py:132-155 | With unique category names, a day's cell for a category lists, in order, one offer per available employee, dated that day. |
| Search.WindowSize | scheduling/views.py:128-129 | `today + timedelta(days=i)` for `i` in `range(n)` gives n distinct days. |
| Search.BySlotGrid | scheduling/views.py:128-155 | The by-slot grid covers exactly the 28 days starting today, each with one cell per category name. |
| Search.BySlotGridShape | scheduling/views.py:128-155 | The by-slot grid has 28 distinct days including today. Each day's cell for a category lists, in order, one offer per employee the rule admits on that day, carrying the employee's id and the day's ISO date. |
| Dates.BeforeTransitive | core/models.py:42-47 | Date order is transitive, which is what makes "next send date is later" chain. |
| Dates.FirstDayNextMonth | core/models.py:42-47 | The result is always a first of the month. December gives January 1 of the next year, and any other month gives the next month of the same year. The result is strictly later than the input. |
| Dates.FirstDayNextMonthIsEarliest | core/models.py:42-47 | No first of a month lies strictly between the input and the result. |
| Dates.AddDaysInjective | scheduling/views.py:128-129 | Different day offsets from the same date give different dates. |
| Dates.ParseIsoDate | scheduling/views.py:240-243 | `strptime(…, "%Y-%m-%d")`: a parsed date comes from a string with a four-digit year followed by a dash, and its year is the value of those four digits. |
| Dates.FormatThenParse | scheduling/views.py:240-243 | Parsing a date's ISO text gives back the date, for every year `strptime`'s `%Y` can read. |
| Money.RoundHalfEven | billing/models.py:166-171 | `quantize` with `ROUND_HALF_EVEN`: the result is within half a unit of the exact quotient, and ties go to the even neighbour. An exact quotient is returned unchanged, and the sign is kept. |
| Money.RoundHalfEvenUnique | billing/models.py:166-171 | The half-to-even result is the only integer with that property, so any other rounding that meets it agrees. |
| Money.QuantizeCentsExact | billing/models.py:173-176 | Quantizing an amount that already has two decimal places changes nothing. |
| Money.ApplyRate | billing/models.py:166-171 | Tax is subtotal times rate rounded half-to-even to cents. It is non-negative for a non-negative subtotal and rate, and zero for a zero rate. |
| Money.AmountDisplayRoundTrip | billing/models.py:54-56 | The `$` amount text loses nothing: reading it back gives the amount in cents, for negative amounts too. |
| Money.AmountDisplayShape | billing/models.py:54-56 | A non-negative amount renders as `$`, whole dollars, a point and exactly two digits, whose value is the amount. |
| Carts.Upsert | scheduling/views.py:258-268 | A known key keeps its row count and id counter. A new key adds exactly one row and takes the next id. Items with other keys are untouched. |
| Carts.UpsertValid | billing/models.py:231-234 | Adding or refreshing an item keeps the cart's keys unique. |
| Carts.UpsertView | scheduling/views.py:258-268 | On the key → item map, a known key gets the new unit price with its id and quantity kept. A new key maps to a fresh item with quantity 1. No other key changes. |
| Carts.UpsertTwice | scheduling/views.py:258-268 | Adding the same key at the same price twice equals adding it once. |
| Carts.UnitPrice | scheduling/views.py:253-255 | The unit price is twice the base rate rounded half-to-even to cents. It is exactly twice the rate when the rate has at most two places, and 5000 cents (2 × 25.00) when the category is not in the price table. |
| Carts.CartAdd | scheduling/views.py:222-285 | Each error has its own exact condition: a missing or empty parameter, then a date that does not read as `%Y-%m-%d`, then an employee, category or slot that does not exist. Any error leaves the cart unchanged. Every other request succeeds and creates the item for its (employee, category, slot, date) or refreshes its unit price. |
| Carts.CartAddView | scheduling/views.py:253-268 | An accepted add puts the request's key on the map with the fresh price. A new item has quantity 1, an existing one keeps its quantity and id, and nothing else changes. |
| Carts.CartAddTwice | scheduling/views.py:258-268 | Posting the same request twice gives the same cart and answer as posting it once. |
| Carts.CartRemove | scheduling/views.py:288-302 | Removal fails iff no id is given or no item of this cart has it. Failure leaves the cart as it was. |
| Carts.CartRemoveView | scheduling/views.py:288-302 | A successful removal deletes exactly the item's key from the map and keeps the cart valid. |
| Carts.CartClear | billing/models.py:181-192 | After clearing, the cart is valid and empty, its item count is 0 and `has_items` is false. |
| Carts.ItemCountIsViewSize | billing/models.py:185-192 | The item count is the number of distinct keys, and `has_items` holds iff the map is non-empty. |
| Carts.ItemSubtotal | billing/models.py:239-241 | An item's subtotal is non-negative for a non-negative price and equals the unit price for quantity 1. |
| Carts.ItemSubtotalIsQuantized | billing/models.py:239-241 | Quantizing the item subtotal to cents does not change it. |
| Carts.Subtotal | billing/models.py:157-164 | An empty cart has subtotal 0, and non-negative prices give a non-negative subtotal. |
| Carts.SubtotalIsQuantized | billing/models.py:157-164 | Quantizing the summed subtotal to cents does not change it. |
| Carts.SumSubtotalsAppend | billing/models.py:157-164 | The sum of item subtotals distributes over concatenation. |
| Carts.SubtotalAfterAdd | billing/models.py:157-164 | Adding a new item raises the subtotal by exactly its price. |
| Carts.SubtotalAfterRefresh | billing/models.py:157-164 | Refreshing a price changes the subtotal by the price difference times the item's quantity. |
| Carts.SubtotalAfterRemove | billing/models.py:157-164 | Removing an item lowers the subtotal by exactly that item's subtotal. |
| Carts.Tax | billing/models.py:166-171 | Tax is the subtotal times the rate rounded half-to-even to cents. It is non-negative for non-negative prices and rate, and 0 for an empty cart. |
| Carts.Total | billing/models.py:173-176 | The total is exactly subtotal plus tax, never below the subtotal when prices and rate are non-negative. |
| CartTables.Keyed | billing/utils.py:32-41 | The keyed filter holds exactly the owner's rows with that address key. |
| CartTables.GetOrCreateKeyed | billing/utils.py:20-43 | The lookup fails iff more than one row matches. Otherwise the answer is a matching cart, no row is lost, an existing match leaves the table unchanged, and a new cart is appended. |
| CartTables.GetOrCreateOwned | scheduling/views.py:196-205 | The owner-only lookup fails iff the owner has more than one cart. An owner with exactly one cart gets it back with the table untouched. An owner with none gets a new address-less cart appended under the next id, and no row is ever lost. |
| CartTables.GetOrCreateOwnedIdempotent | scheduling/views.py:196-205 | Asking the owner-only lookup again after it succeeded returns the same cart and creates nothing. |
| CartTables.KeyedAtMostOne | billing/utils.py:32-41 | In a table built by the keyed helper, an owner has at most one cart per address. |
| CartTables.GetOrCreateKeyedValid | billing/utils.py:32-41 | The keyed lookup always succeeds on a valid table and keeps it valid. |
| CartTables.GetOrCreateKeyedIdempotent | billing/utils.py:32-41 | Asking again with the same owner and address gives the same cart and creates nothing. |
| CartTables.DistinctAddressesDistinctCarts | billing/utils.py:28-41 | Different locked addresses give the same owner different carts. |
| CartTables.TwoCartsOwnedFail | scheduling/views.py:196-205 | Any two carts of one owner make the owner-only lookup fail. |
| CartTables.OwnerLookupFailsAfterTwoAddresses | billing/views.py:32-44 | Once an owner has carts for two addresses, the owner-only `get_or_create` of the billing views fails for them. |
| CartTables.UnlockedSessionsShareCart | billing/utils.py:28 | Without a locked address the key is the empty string, so all such requests share one cart. |
| Checkout.Refund | billing/models.py:61-81 | Without a payment-intent id, the refund raises before calling Stripe and leaves the payment unchanged. A refund goes through iff there is an intent id and Stripe answers. It then sets status refunded, records the refund id in the metadata and changes nothing else. |
| Checkout.CheckoutLines | billing/views.py:146-166 | The subtotal line is always first. The tax line is present iff the tax is positive, and there are at most two lines. |
| Checkout.CheckoutTotal | billing/views.py:141-143 | The quantized total is exactly subtotal plus tax. |
| Checkout.CreateCheckoutSession | billing/views.py:128-196 | A missing or empty cart makes no session and no Payment, and Stripe failing makes no Payment. A created Payment has amount subtotal plus tax, status processing, no intent id yet and Stripe's session id. |
| Checkout.CheckoutAmountMatchesLines | billing/views.py:141-190 | The Payment amount equals the sum of the line items iff the tax is non-negative. With non-negative prices and rate they always agree. |
| Checkout.EventUpdate | billing/views.py:290-304 | `payment_intent.succeeded`, `charge.refunded` and `payment_intent.payment_failed` select succeeded, refunded and canceled. Every other event selects nothing. |
| Checkout.UpdateWhere | billing/views.py:294-304 | A filtered update changes the status of exactly the rows whose intent id equals the target, with `None` matching rows that have none. |
| Checkout.WebhookAsWritten | billing/views.py:271-306 | The webhook as written only ever changes a status, and an ignored event changes nothing. A payment changes only if its intent id equals the event's target. For a refund event naming no intent, that target is `None`, which matches the payments without an intent id; `Checkout.RefundEventWithoutIntentAsWritten` shows one being marked refunded. |
| Checkout.Webhook | billing/views.py:293-306 | The corrected webhook, not the code as written: it only ever changes a status, and only on payments whose intent id the event actually names. An ignored event, or a refund event naming no intent, changes nothing. |
| Checkout.WebhookStatusMapping | billing/views.py:293-306 | In the corrected webhook, each of the three events sets its status on exactly the payments whose intent id it names and leaves all others untouched. A refund event naming no intent changes nothing. |
| Checkout.WebhookAgreesWhenIntentNamed | billing/views.py:293-306 | The code as written and the corrected webhook agree on every event except a refund that names no payment intent. |
| Checkout.RefundEventWithoutIntentAsWritten | billing/views.py:297-300 | A refund event without a payment intent marks a fresh Payment refunded in the code as written. The corrected webhook leaves it alone. |
| Checkout.NewPaymentsHitByIntentlessRefund | billing/views.py:183-190 | Every Payment checkout creates would be marked refunded by such an event in the code as written. |
| Checkout.OrElse | billing/views.py:89-90 | Python's `a or b`: a present, non-empty value wins, otherwise the fallback. |
| Checkout.CheckoutSummary | billing/views.py:66-101 | An empty cart goes back to the search, and two session addresses are used as they are. Otherwise the user is sent to the profile page iff there is no profile or a profile field is empty. A shown summary stores the addresses it shows. |
| Checkout.SummaryKeepsExistingAddresses | billing/views.py:84-101 | An address already in the session is never overwritten, and a missing one becomes the profile's full address. Afterwards both are set. |
| Newsletter.AddressText | core/models.py:34-36 | The text always ends with "line1, city". It is exactly that when the label is empty, and otherwise the label then " • " come first. |
| Newsletter.SaveSubscription | core/models.py:68-71 | An existing token is never replaced, and only an empty token gets the generated one. |
| Newsletter.SaveKeepsToken | core/models.py:68-71 | After one save with a generated token, later saves keep that token whatever token they generate. |
| Newsletter.Selected | core/management/commands/send_monthly_newsletter.py:17-20 | Exactly the subscribed rows due on or before today are selected. |
| Newsletter.SendMonthlyNewsletter | core/management/commands/send_monthly_newsletter.py:15-54 | Each mailed subscription moves to the first of next month and a failed or unselected one is unchanged. The count is the number of successful sends, never more than the number selected. |
| Newsletter.CountSentAtMostSelected | core/management/commands/send_monthly_newsletter.py:21-44 | The sent count never exceeds the number of selected subscriptions. |
| Newsletter.AdvancedNotDueToday | core/management/commands/send_monthly_newsletter.py:44-47 | A mailed subscription's next date is the first of next month, which is after today, so it is no longer due. |
| Newsletter.SecondRunSelectsNothing | core/management/commands/send_monthly_newsletter.py:17-47 | When every send succeeds, a second run the same day selects nothing. |
| Forms.CleanPhone | customers/forms.py:61-65 | A phone is accepted iff the stripped value contains a digit, and the stripped value is returned. |
| Forms.CleanEmail | customers/forms.py:67-73 | An email is accepted iff the stripped value is empty or ends with `.com`, `.net` or `.org`, and the stripped value is returned. |
| Forms.PhoneDigitSurvivesStrip | customers/forms.py:62-64 | Any digit anywhere in the input makes the phone acceptable, because stripping never removes digits. |
| Forms.CleanPhoneIdempotent | customers/forms.py:62-65 | Cleaning an accepted phone again returns the same value. |
| Forms.CleanEmailIdempotent | customers/forms.py:68-73 | Cleaning an accepted email again returns the same value. |
| Forms.UpperCaseDomainRefused | customers/forms.py:69-72 | The ending check is case-sensitive: `a@b.COM` is refused. |
| SessionCart.CartSummary | billing/context_processors.py:5-10 | A missing or empty session cart gives count 0 and total 0. What each value adds is stated by `SessionCart.SummarySnoc`. |
| SessionCart.SummarySnoc | billing/context_processors.py:7-9 | One more value adds its quantity (1 when absent) to the count and its price (0 when absent) times quantity to the total. |
| SessionCart.UnpricedItemCountsButCostsNothing | billing/context_processors.py:7-9 | An item without a price adds to the count but nothing to the total. |
| SessionCart.CountWithoutQuantities | billing/context_processors.py:7 | With no quantities given, the count is the number of values. |
| SessionCart.CoreCartSummary | core/context_processors.py:1-6 | The core copy, with the same two sums as the billing copy and computed here in one pass, returns exactly what the billing copy returns for every session cart. |

## Left out

- **The database, the request and the session.** ORM querysets, transactions, request objects, templates, flash messages, redirects and HTTP status codes are left out. Tables are sequences, the session is two optional strings, and each view returns its resulting state and an error value.
- **Stripe.** The signature check and event parsing of the webhook, and the calls that create checkout sessions and refunds, are foreign calls. Their results are parameters.
- **Mail and randomness.** Mail delivery (`send_mail`) and token generation (`secrets.token_hex`) are parameters.
- **Clocks.** `timezone.localdate()` and `now()` are arguments, including `first_day_next_month`'s default of today.
- **Real drive times.** A Google Maps lookup does not exist in the code, so drive time is an uninterpreted function. The 20-minute placeholder is one instance of it.
- **Dates.** Python's upper limit of year 9999 on `date` is not modelled.
- **`strptime` details.** `%Y` is read as exactly four digits, and `%m` and `%d` are read with `strptime`'s own alternatives. Only ASCII digits are modelled.
- **Character handling.** `lower()` and `isdigit()` are modelled on ASCII. Unicode case mapping and non-ASCII digits are left out. The whitespace set of `strip()` is modelled in full.
- **`amount_display`'s float.** It divides in floating point before formatting. The model formats the exact cents, which agree with it for every amount a float represents exactly to the cent.
- **Decimal contexts.** Prices and rates are exact decimals. Python's 28-digit context precision is left out.
- **Tax rates.** The rates in `core.constants` and `billing.constants` are not part of this model. Each computation takes its rate as a parameter.
- **Cart selection in `create_checkout_session`.** It picks the user's most recently updated cart, which is given as an argument.
- **Non-numeric ids.** A `ValueError` from a non-numeric primary key in `cart_add` or `cart_remove` is left out. Lookups are by key in a map.
- **Form declarations and `cart_context`.** The by-slot search form, the profile forms' field declarations and `cart_context` (a database read whose errors are swallowed) are left out.
- **`Booking.date`.** `Booking` has no `date` field, yet the code queries `booking__date`. The model gives each booking a date.
- **Imports.** scheduling/views.py imports `Cart` and `CartItem` from `scheduling.models`, and so does billing/views.py for `Cart` (at module level, billing/views.py:21, and again inside two views, :133 and :208). `scheduling.models` defines no `Cart`, so importing either module fails before any view runs. scheduling/utils.py imports nothing. All of these are modelled with the definitions they evidently mean: billing/models.py's `Cart` and `CartItem` for the views of both modules (every `Checkout` member and the owner-only lookup of `CartTables`), and availability.py's `Employee` and drive-time function for utils.py.
- **Offer fields.** `drive_time` and `route_origin` of a by-slot offer are read with `getattr` from employees that never carry them, so they are always `None`.
- Checkout.CheckoutSummary: `RegisteredCustomer` has no link to a user (customers/models.py:6-15), so the lookup `RegisteredCustomer.objects.get(user=request.user)` at billing/views.py:86 raises a `FieldError` that the `DoesNotExist` handler does not catch. The model assumes the user-to-profile link the code evidently means, and `profile` is what that lookup would return (`None` for no profile). The same holds for `Checkout.SummaryKeepsExistingAddresses`.
- Search.BySlotGrid: the slot is taken as the `TimeSlot` row the code evidently means (its `slot.id` at scheduling/views.py:150 and the `booking__time_slot` filter at :139). The form's `time_slot` field actually yields a label string such as `"7:30-9:30"` (scheduling/forms.py:4-9, 32-35), on which those lines would fail. The same holds for `Search.BySlotGridShape` and `Search.DayCellsValue`.
- Search.ResolveSearchAddress: both searches build their form with a `user=` keyword (scheduling/views.py:38, 103) that the plain form classes of scheduling/forms.py do not accept. The model drops that keyword and starts from the cleaned form values.
- Carts.Upsert: item ids come from a counter per cart (`Cart.nextId`), whereas `CartItem`'s primary key is shared by all carts. Removal looks items up within one cart only (scheduling/views.py:293), so no modelled property depends on the difference.
- Carts.ItemSubtotal: its contract states sign and quantity-1 facts; that quantizing it to cents changes nothing is the separate lemma `Carts.ItemSubtotalIsQuantized`.
- Carts.Subtotal: its contract states the empty-cart and sign facts; that the quantized sum equals the exact sum is the separate lemma `Carts.SubtotalIsQuantized`.

## Findings

| source | as written | input that shows it | evidently intended | confidence | as-written member | corrected member |
|---|---|---|---|---|---|---|
| billing/views.py:297-300 | A `charge.refunded` event filters payments by `stripe_payment_intent_id=data.get("payment_intent")`. When the charge has no payment intent, that is `None`, which Django turns into `IS NULL` and so matches every payment without an intent id. | A Payment just created by checkout (no intent id, status processing) and a `charge.refunded` event whose object has no `payment_intent`. The payment becomes `refunded`. This holds once the `Cart` import at billing/views.py:21 is repaired; as written, the module does not import. | An event that names no payment intent updates nothing. | not executed | Checkout.RefundEventWithoutIntentAsWritten | Checkout.Webhook |
