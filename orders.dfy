/**
 * The Order record (models/Order.js): its two status enumerations and their defaults,
 * creation with the `beforeCreate` hook and the column checks, and the admin status update
 * (routes/admin.js:513-530). Monetary columns are integer kuruş.
 */
module Orders {
  import opened Wrappers
  import opened Strings
  import OrderNumber

  /** `odeme_durumu` (models/Order.js:47-50). */
  datatype PaymentStatus = PaymentPending | Paid | PaymentCancelled | Refunded {
    function Label(): string
    {
      match this
      case PaymentPending => "beklemede"
      case Paid => "odendi"
      case PaymentCancelled => "iptal"
      case Refunded => "iade"
    }
  }

  /** `siparis_durumu` (models/Order.js:51-54). */
  datatype OrderStatus = OrderPending | Confirmed | Preparing | Shipped | Delivered | OrderCancelled {
    function Label(): string
    {
      match this
      case OrderPending => "beklemede"
      case Confirmed => "onaylandi"
      case Preparing => "hazirlaniyor"
      case Shipped => "kargoda"
      case Delivered => "teslim_edildi"
      case OrderCancelled => "iptal"
    }
  }

  /** The ENUM column's reading of a stored string: only the listed values are accepted. */
  function ParsePaymentStatus(s: string): (r: Option<PaymentStatus>)
    ensures r.Some? ==> r.value.Label() == s
    ensures r.None? ==> s !in {"beklemede", "odendi", "iptal", "iade"}
  {
    if s == "beklemede" then Some(PaymentPending)
    else if s == "odendi" then Some(Paid)
    else if s == "iptal" then Some(PaymentCancelled)
    else if s == "iade" then Some(Refunded)
    else None
  }

  function ParseOrderStatus(s: string): (r: Option<OrderStatus>)
    ensures r.Some? ==> r.value.Label() == s
    ensures r.None? ==> s !in {"beklemede", "onaylandi", "hazirlaniyor", "kargoda", "teslim_edildi", "iptal"}
  {
    if s == "beklemede" then Some(OrderPending)
    else if s == "onaylandi" then Some(Confirmed)
    else if s == "hazirlaniyor" then Some(Preparing)
    else if s == "kargoda" then Some(Shipped)
    else if s == "teslim_edildi" then Some(Delivered)
    else if s == "iptal" then Some(OrderCancelled)
    else None
  }

  /** Each status is stored under a label that reads back as that status. */
  lemma StatusLabelsRoundTrip(p: PaymentStatus, o: OrderStatus)
    ensures ParsePaymentStatus(p.Label()) == Some(p)
    ensures ParseOrderStatus(o.Label()) == Some(o)
  {
  }

  datatype Order = Order(
    id: int,
    number: string,
    userId: int,
    shippingAddressId: int,
    billingAddressId: int,
    subtotal: int,
    taxTotal: int,
    shippingFee: int,
    discount: int,
    total: int,
    payment: PaymentStatus,
    status: OrderStatus,
    paymentId: Option<string>,
    basketId: Option<string>,
    trackingNo: Option<string>,
    carrier: Option<string>,
    notes: Option<string>,
    ip: Option<string>)

  /**
   * The attributes a caller hands to `Order.create`; `None` is an attribute left out,
   * which takes the column default. `number` is whatever the caller put in `siparis_no`.
   */
  datatype OrderDraft = OrderDraft(
    number: Option<string>,
    userId: int,
    shippingAddressId: int,
    billingAddressId: int,
    subtotal: int,
    taxTotal: int,
    shippingFee: Option<int>,
    discount: Option<int>,
    total: int,
    payment: Option<PaymentStatus>,
    status: Option<OrderStatus>)

  /**
   * The insert once `siparis_no` has passed the not-null check: the `beforeCreate` hook
   * overwrites it with the number of the clock reading, column defaults fill the
   * left-out attributes, and the unique index refuses a number already in `taken`.
   */
  function CreateNumbered(draft: OrderDraft, taken: set<string>, id: int,
                          year: nat, month0: nat, date: nat, random: real): (r: Option<Order>)
    requires month0 < 12 && 1 <= date <= 31 && 0.0 <= random < 1.0
    ensures r.None? <==> OrderNumber.Encode(year, month0, date, random) in taken
    ensures r.Some? ==> r.value.number == OrderNumber.Encode(year, month0, date, random) && r.value.number !in taken
  {
    var number := OrderNumber.Encode(year, month0, date, random);
    if number in taken then None
    else
      Some(Order(id, number, draft.userId,
        draft.shippingAddressId, draft.billingAddressId, draft.subtotal, draft.taxTotal,
        draft.shippingFee.GetOr(0), draft.discount.GetOr(0), draft.total,
        draft.payment.GetOr(PaymentPending), draft.status.GetOr(OrderPending),
        None, None, None, None, None, None))
  }

  /**
   * `Order.create(draft)` at the given clock reading, `taken` being the numbers already
   * stored. Sequelize validates before it runs `beforeCreate`, so a draft without
   * `siparis_no` fails the not-null check and the hook never runs; a draft with one gets
   * the hook's number in its place.
   */
  function Create(draft: OrderDraft, taken: set<string>, id: int,
                  year: nat, month0: nat, date: nat, random: real): (r: Option<Order>)
    requires month0 < 12 && 1 <= date <= 31 && 0.0 <= random < 1.0
  {
    if draft.number.None? then None
    else CreateNumbered(draft, taken, id, year, month0, date, random)
  }

  /**
   * A create is refused exactly when no `siparis_no` was given or the hook's number is
   * already taken. Otherwise the new order starts unpaid and pending unless told otherwise,
   * has no shipping fee or discount unless given, carries no tracking data, and its number
   * is the hook's, a fresh well-formed one, whatever number the caller supplied.
   */
  lemma CreateDefaults(draft: OrderDraft, taken: set<string>, id: int, year: nat, month0: nat, date: nat, random: real)
    requires month0 < 12 && 1 <= date <= 31 && 0.0 <= random < 1.0
    requires year >= 10
    ensures var r := Create(draft, taken, id, year, month0, date, random);
      && (r.None? <==> draft.number.None? || OrderNumber.Encode(year, month0, date, random) in taken)
      && (r.Some? ==>
            var o := r.value;
            && (draft.payment.None? ==> o.payment == PaymentPending)
            && (draft.status.None? ==> o.status == OrderPending)
            && (draft.shippingFee.None? ==> o.shippingFee == 0)
            && (draft.discount.None? ==> o.discount == 0)
            && o.trackingNo.None? && o.carrier.None?
            && o.number !in taken
            && |o.number| == 12 && OrderNumber.Decode(o.number).Some?)
  {
    OrderNumber.EncodeFormat(year, month0, date, random);
    OrderNumber.DecodeEncode(year, month0, date, random);
  }

  /**
   * The number never comes from the hook alone: a draft that leaves `siparis_no` to the
   * hook is refused, while the same draft with the hook run before validation would be
   * stored under the hook's fresh number.
   */
  lemma HookAloneNeverNumbers(draft: OrderDraft, taken: set<string>, id: int,
                              year: nat, month0: nat, date: nat, random: real)
    requires month0 < 12 && 1 <= date <= 31 && 0.0 <= random < 1.0
    requires draft.number.None? && OrderNumber.Encode(year, month0, date, random) !in taken
    ensures Create(draft, taken, id, year, month0, date, random).None?
    ensures CreateNumbered(draft, taken, id, year, month0, date, random).Some?
  {
  }

  /** Every status is stored under a lower-case label. */
  lemma LabelIsLowercase(s: OrderStatus)
    ensures Lower(s.Label()) == s.Label()
  {
    LowerKeepsLowercase(s.Label());
  }

  /** The update either writes the new map or throws, and the `catch` keeps the table as it was. */
  datatype StatusUpdate = StatusUpdated(orders: map<int, Order>) | StatusRefused

  /** A submitted `siparis_durumu` that names no value of the ENUM, in any letter case. */
  predicate LabelRefused(sent: Option<string>)
  {
    sent.Some? && ParseOrderStatus(Lower(sent.value)).None?
  }

  /**
   * POST /admin/siparisler/:id/durum: `Order.update` of `siparis_durumu`, `kargo_takip_no`
   * and `kargo_firmasi` where the id matches. An attribute not submitted (`None`) is left
   * as it was; no transition is checked; an unknown id changes nothing. MySQL stores the
   * ENUM member the label names under the case-insensitive collation and refuses any other
   * label, and the `catch` then leaves every order as it was.
   */
  function UpdateStatus(orders: map<int, Order>, id: int, sent: Option<string>,
                        trackingNo: Option<string>, carrier: Option<string>): (r: StatusUpdate)
    ensures r.StatusRefused? <==> LabelRefused(sent)
    ensures r.StatusUpdated? ==> r.orders.Keys == orders.Keys
    ensures r.StatusUpdated? ==> forall k :: k in orders && k != id ==> r.orders[k] == orders[k]
    ensures r.StatusUpdated? && id in orders ==>
      && r.orders[id].status == (if sent.Some? then ParseOrderStatus(Lower(sent.value)).value else orders[id].status)
      && Lower(r.orders[id].status.Label()) == (if sent.Some? then Lower(sent.value) else Lower(orders[id].status.Label()))
      && r.orders[id].trackingNo == (if trackingNo.Some? then trackingNo else orders[id].trackingNo)
      && r.orders[id].carrier == (if carrier.Some? then carrier else orders[id].carrier)
      && r.orders[id] == orders[id].(status := r.orders[id].status, trackingNo := r.orders[id].trackingNo,
                                     carrier := r.orders[id].carrier)
  {
    if LabelRefused(sent) then StatusRefused
    else if id !in orders then StatusUpdated(orders)
    else
      var o := orders[id];
      var status := if sent.Some? then ParseOrderStatus(Lower(sent.value)).value else o.status;
      LabelIsLowercase(status);
      StatusUpdated(orders[id := o.(status := status,
                                    trackingNo := if trackingNo.Some? then trackingNo else o.trackingNo,
                                    carrier := if carrier.Some? then carrier else o.carrier)])
  }

  /**
   * Any status can follow any other: a delivered order can be put back to pending and a
   * cancelled one to shipped, and neither payment status nor totals move.
   */
  lemma AnyTransitionAccepted(orders: map<int, Order>, id: int, target: OrderStatus)
    requires id in orders
    ensures var r := UpdateStatus(orders, id, Some(target.Label()), None, None);
      r.StatusUpdated? && r.orders[id].status == target
      && r.orders[id].payment == orders[id].payment && r.orders[id].total == orders[id].total
  {
    LabelIsLowercase(target);
    StatusLabelsRoundTrip(PaymentPending, target);
  }

  /** A label outside the ENUM, such as "kayip", is refused and no order changes. */
  lemma UnknownLabelRefused(orders: map<int, Order>, id: int, trackingNo: Option<string>, carrier: Option<string>)
    ensures UpdateStatus(orders, id, Some("kayip"), trackingNo, carrier).StatusRefused?
  {
    assert Lower("kayip") == "kayip" by {
      LowerKeepsLowercase("kayip");
    }
  }
}
