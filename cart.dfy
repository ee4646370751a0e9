/**
 * The cart rules of the storefront API (routes/api.js:156-313) and of the login
 * merge (routes/auth.js:89-108), as functions on values: the guest cart array held
 * in the session, the `sepet` table rows of logged-in users, the subtotal, and the
 * favourites set. The state-changing handlers in module Store are proved to compute
 * exactly these functions.
 *
 * Product ids are one integer type here. In the source the guest cart stores the
 * `urun_id` exactly as the client sent it (a string, public/js/main.js:138,150) and
 * compares it with `===` on add and update but against `parseInt(urun_id)` on remove.
 * The storefront's quantity buttons and remove button send the id as a number (or a
 * route parameter), so neither a guest's update nor a guest's remove finds the line;
 * both are modelled as written at the end of this module.
 */
module Cart {
  import opened Wrappers
  import opened Seqs
  import opened Strings

  /** The product fields a guest line copies when it is first added (routes/api.js:246-253). */
  datatype Snapshot = Snapshot(id: int, name: string, partNo: string, price: nat, slug: string)

  /** One element `{ urun_id, adet, urun }` of the session cart. */
  datatype Line = Line(productId: int, qty: int, product: Snapshot)

  /** One row of the `sepet` table (models/Cart.js); the table has no unique index. */
  datatype Row = Row(userId: int, productId: int, qty: int)

  // ---------------------------------------------------------------------------
  // Guest cart

  /** `sessionCart.findIndex(item => item.urun_id === urun_id)`. */
  function LineIndex(lines: seq<Line>, pid: int): int
  {
    FirstIndex(lines, (l: Line) => l.productId == pid)
  }

  /** The quantity of `pid` summed over the lines. */
  function QtyOf(lines: seq<Line>, pid: int): int
  {
    Sum(lines, (l: Line) => if l.productId == pid then l.qty else 0)
  }

  predicate OneLinePerProduct(lines: seq<Line>)
  {
    forall i, j :: 0 <= i < j < |lines| ==> lines[i].productId != lines[j].productId
  }

  /** POST /sepet/ekle for a guest: increment the product's line, or append one (routes/api.js:238-255). */
  function GuestAdd(lines: seq<Line>, pid: int, qty: int, snapshot: Snapshot): seq<Line>
  {
    var i := LineIndex(lines, pid);
    if i == -1 then lines + [Line(pid, qty, snapshot)]
    else lines[i := lines[i].(qty := lines[i].qty + qty)]
  }

  /** PUT /sepet/guncelle for a guest: set the first matching line's quantity (routes/api.js:280-283). */
  function GuestSetQty(lines: seq<Line>, pid: int, qty: int): seq<Line>
  {
    var i := LineIndex(lines, pid);
    if i == -1 then lines else lines[i := lines[i].(qty := qty)]
  }

  /** DELETE /sepet/sil/:urun_id for a guest: keep the lines of other products (routes/api.js:303-305). */
  function GuestRemove(lines: seq<Line>, pid: int): seq<Line>
  {
    Filter(lines, (l: Line) => l.productId != pid)
  }

  lemma QtyOfUpdate(lines: seq<Line>, i: int, l: Line, pid: int)
    requires 0 <= i < |lines|
    ensures QtyOf(lines[i := l], pid) ==
      QtyOf(lines, pid) - (if lines[i].productId == pid then lines[i].qty else 0) + (if l.productId == pid then l.qty else 0)
  {
    SumUpdate(lines, i, l, (l: Line) => if l.productId == pid then l.qty else 0);
  }

  lemma QtyOfAppend(lines: seq<Line>, l: Line, pid: int)
    ensures QtyOf(lines + [l], pid) == QtyOf(lines, pid) + (if l.productId == pid then l.qty else 0)
  {
    SumConcat(lines, [l], (l: Line) => if l.productId == pid then l.qty else 0);
    assert [l][..0] == [];
  }

  /** With no line for `pid` its quantity is zero. */
  lemma QtyOfAbsent(lines: seq<Line>, pid: int)
    requires forall j :: 0 <= j < |lines| ==> lines[j].productId != pid
    ensures QtyOf(lines, pid) == 0
  {
    SumZero(lines, (l: Line) => if l.productId == pid then l.qty else 0);
  }

  /** With one line per product the quantity of `pid` is that line's own. */
  lemma QtyOfUnique(lines: seq<Line>, i: int)
    requires OneLinePerProduct(lines) && 0 <= i < |lines|
    ensures QtyOf(lines, lines[i].productId) == lines[i].qty
  {
    var pid := lines[i].productId;
    QtyOfUpdate(lines, i, lines[i].(productId := pid + 1), pid);
    var other := lines[i := lines[i].(productId := pid + 1)];
    QtyOfAbsent(other, pid);
  }

  /**
   * Adding grows the product's quantity by exactly the amount added and leaves every other
   * product's quantity alone; a product already in the cart keeps its line and position, a
   * new one gets exactly one line at the end; and the cart keeps one line per product.
   */
  lemma {:induction false} GuestAddEffect(lines: seq<Line>, pid: int, qty: int, snapshot: Snapshot)
    ensures var r := GuestAdd(lines, pid, qty, snapshot);
      && (forall p :: QtyOf(r, p) == QtyOf(lines, p) + (if p == pid then qty else 0))
      && (forall j :: 0 <= j < |lines| && lines[j].productId != pid ==> r[j] == lines[j])
      && (LineIndex(lines, pid) == -1 ==> |r| == |lines| + 1 && r[|lines|] == Line(pid, qty, snapshot))
      && (LineIndex(lines, pid) != -1 ==> |r| == |lines|)
      && (OneLinePerProduct(lines) ==> OneLinePerProduct(r))
  {
    var i := LineIndex(lines, pid);
    var r := GuestAdd(lines, pid, qty, snapshot);
    forall p ensures QtyOf(r, p) == QtyOf(lines, p) + (if p == pid then qty else 0) {
      if i == -1 {
        QtyOfAppend(lines, Line(pid, qty, snapshot), p);
      } else {
        QtyOfUpdate(lines, i, lines[i].(qty := lines[i].qty + qty), p);
      }
    }
  }

  /** Adding keeps one line per product. */
  lemma GuestAddKeepsOneLine(lines: seq<Line>, pid: int, qty: int, snapshot: Snapshot)
    requires OneLinePerProduct(lines)
    ensures OneLinePerProduct(GuestAdd(lines, pid, qty, snapshot))
  {
  }

  /** Adding a product twice to an empty cart gives one line holding both amounts. */
  lemma AddTwiceOneLine(pid: int, a: int, b: int, s1: Snapshot, s2: Snapshot)
    ensures GuestAdd(GuestAdd([], pid, a, s1), pid, b, s2) == [Line(pid, a + b, s1)]
  {
    assert LineIndex([Line(pid, a, s1)], pid) == 0;
  }

  /**
   * Setting a quantity changes no line other than the product's own and no product ids;
   * with one line per product that product's quantity becomes the new value when it has a
   * line, and nothing at all changes when it has none.
   */
  lemma {:induction false} GuestSetQtyEffect(lines: seq<Line>, pid: int, qty: int)
    requires OneLinePerProduct(lines)
    ensures var r := GuestSetQty(lines, pid, qty);
      && |r| == |lines|
      && (forall j :: 0 <= j < |lines| ==> r[j].productId == lines[j].productId && r[j].product == lines[j].product)
      && (forall j :: 0 <= j < |lines| && lines[j].productId != pid ==> r[j] == lines[j])
      && (LineIndex(lines, pid) == -1 ==> r == lines)
      && (LineIndex(lines, pid) != -1 ==> QtyOf(r, pid) == qty)
      && OneLinePerProduct(r)
  {
    var i := LineIndex(lines, pid);
    if i != -1 {
      var r := GuestSetQty(lines, pid, qty);
      assert r[i].productId == pid;
      QtyOfUnique(r, i);
    }
  }

  lemma {:induction false} QtyOfFilter(lines: seq<Line>, pid: int, p: int)
    ensures QtyOf(GuestRemove(lines, pid), p) == if p == pid then 0 else QtyOf(lines, p)
  {
    if lines != [] {
      var init := lines[..|lines| - 1];
      var last := lines[|lines| - 1];
      assert lines == init + [last];
      var kept := GuestRemove(init, pid);
      QtyOfFilter(init, pid, p);
      QtyOfAppend(init, last, p);
      if last.productId != pid {
        assert GuestRemove(lines, pid) == kept + [last];
        QtyOfAppend(kept, last, p);
      } else {
        assert GuestRemove(lines, pid) == kept;
      }
    }
  }

  lemma {:induction false} FilterKeepsOneLinePerProduct(lines: seq<Line>, pid: int)
    requires OneLinePerProduct(lines)
    ensures OneLinePerProduct(GuestRemove(lines, pid))
  {
    if lines != [] {
      var init := lines[..|lines| - 1];
      var last := lines[|lines| - 1];
      FilterKeepsOneLinePerProduct(init, pid);
      var r := GuestRemove(lines, pid);
      var kept := GuestRemove(init, pid);
      if last.productId != pid {
        assert r == kept + [last];
        forall i | 0 <= i < |kept| ensures kept[i].productId != last.productId {
          assert kept[i] in init;
          var k :| 0 <= k < |init| && init[k] == kept[i];
          assert lines[k] == kept[i];
        }
      }
    }
  }

  /**
   * Removing drops every line of the product and nothing else: the product's quantity
   * becomes zero, every other product keeps its quantity, and the rest keep their order
   * (removal distributes over concatenation). Removing again changes nothing, so the
   * handler's unconditional success is safe to repeat.
   */
  lemma GuestRemoveEffect(lines: seq<Line>, pid: int, a: seq<Line>, b: seq<Line>)
    ensures var r := GuestRemove(lines, pid);
      && (forall l :: l in r <==> l in lines && l.productId != pid)
      && (forall p :: QtyOf(r, p) == if p == pid then 0 else QtyOf(lines, p))
      && GuestRemove(r, pid) == r
      && (OneLinePerProduct(lines) ==> OneLinePerProduct(r))
      && GuestRemove(a + b, pid) == GuestRemove(a, pid) + GuestRemove(b, pid)
  {
    forall p ensures QtyOf(GuestRemove(lines, pid), p) == if p == pid then 0 else QtyOf(lines, p) {
      QtyOfFilter(lines, pid, p);
    }
    FilterIdempotent(lines, (l: Line) => l.productId != pid);
    if OneLinePerProduct(lines) {
      FilterKeepsOneLinePerProduct(lines, pid);
    }
    FilterConcat(a, b, (l: Line) => l.productId != pid);
  }

  // ---------------------------------------------------------------------------
  // Subtotal: GET /sepet

  /**
   * One cart item as the subtotal loop sees it: the price of the joined or copied
   * product, or `None` when a table row's product no longer exists (`item.fiyat` is
   * then undefined).
   */
  datatype Priced = Priced(price: Option<nat>, qty: int)

  /** `araToplam`: Σ price × quantity, or `None` for JavaScript's NaN once any price is missing. */
  function Subtotal(items: seq<Priced>): Option<int>
  {
    if items == [] then Some(0)
    else
      var last := items[|items| - 1];
      match (Subtotal(items[..|items| - 1]), last.price)
      case (Some(acc), Some(p)) => Some(acc + p * last.qty)
      case _ => None
  }

  /** The subtotal is a number exactly when every item has a price. */
  lemma {:induction false} SubtotalDefined(items: seq<Priced>)
    ensures Subtotal(items).Some? <==> forall i :: 0 <= i < |items| ==> items[i].price.Some?
  {
    if items != [] {
      SubtotalDefined(items[..|items| - 1]);
      var init := items[..|items| - 1];
      assert forall i :: 0 <= i < |init| ==> init[i] == items[i];
    }
  }

  /** The items of a guest cart: each line priced by its snapshot. */
  function GuestItems(lines: seq<Line>): (items: seq<Priced>)
    ensures |items| == |lines|
    ensures forall i :: 0 <= i < |lines| ==> items[i] == Priced(Some(lines[i].product.price), lines[i].qty)
  {
    if lines == [] then [] else GuestItems(lines[..|lines| - 1]) + [Priced(Some(lines[|lines| - 1].product.price), lines[|lines| - 1].qty)]
  }

  /** A guest cart always has a numeric subtotal: Σ snapshot price × quantity over its lines. */
  lemma {:induction false} GuestSubtotal(lines: seq<Line>)
    ensures Subtotal(GuestItems(lines)) == Some(Sum(lines, (l: Line) => l.product.price * l.qty))
  {
    if lines != [] {
      var init := lines[..|lines| - 1];
      GuestSubtotal(init);
      assert GuestItems(lines)[..|lines| - 1] == GuestItems(init);
    }
  }

  // ---------------------------------------------------------------------------
  // Cart table of a logged-in user

  function RowIndex(rows: seq<Row>, uid: int, pid: int): int
  {
    FirstIndex(rows, (r: Row) => r.userId == uid && r.productId == pid)
  }

  /** The quantity of `pid` in `uid`'s cart, summed over the table. */
  function UserQty(rows: seq<Row>, uid: int, pid: int): int
  {
    Sum(rows, (r: Row) => if r.userId == uid && r.productId == pid then r.qty else 0)
  }

  predicate OneRowPerProduct(rows: seq<Row>)
  {
    forall i, j :: 0 <= i < j < |rows| ==> rows[i].userId != rows[j].userId || rows[i].productId != rows[j].productId
  }

  /**
   * `Cart.findOne({ user_id, urun_id })` then `existingItem.adet += n; save()` or
   * `Cart.create(...)`: the upsert of routes/api.js:216-231 and of routes/auth.js:92-105.
   */
  function UserAdd(rows: seq<Row>, uid: int, pid: int, qty: int): seq<Row>
  {
    var i := RowIndex(rows, uid, pid);
    if i == -1 then rows + [Row(uid, pid, qty)]
    else rows[i := rows[i].(qty := rows[i].qty + qty)]
  }

  /** `Cart.update({ adet }, { where: { user_id, urun_id } })`: every matching row (routes/api.js:274-278). */
  function UserSetQty(rows: seq<Row>, uid: int, pid: int, qty: int): (r: seq<Row>)
    ensures |r| == |rows|
    ensures forall j :: 0 <= j < |rows| ==>
      r[j] == if rows[j].userId == uid && rows[j].productId == pid then rows[j].(qty := qty) else rows[j]
  {
    if rows == [] then []
    else
      var last := rows[|rows| - 1];
      UserSetQty(rows[..|rows| - 1], uid, pid, qty)
        + [if last.userId == uid && last.productId == pid then last.(qty := qty) else last]
  }

  /** `Cart.destroy({ where: { user_id, urun_id } })` (routes/api.js:298-301). */
  function UserRemove(rows: seq<Row>, uid: int, pid: int): seq<Row>
  {
    Filter(rows, (r: Row) => !(r.userId == uid && r.productId == pid))
  }

  /** The login merge: the guest lines upserted into `uid`'s rows one after another (routes/auth.js:91-106). */
  function Merge(rows: seq<Row>, uid: int, guest: seq<Line>): seq<Row>
  {
    if guest == [] then rows
    else
      var last := guest[|guest| - 1];
      UserAdd(Merge(rows, uid, guest[..|guest| - 1]), uid, last.productId, last.qty)
  }

  lemma UserQtyUpdate(rows: seq<Row>, i: int, x: Row, uid: int, pid: int)
    requires 0 <= i < |rows|
    ensures UserQty(rows[i := x], uid, pid) ==
      UserQty(rows, uid, pid)
      - (if rows[i].userId == uid && rows[i].productId == pid then rows[i].qty else 0)
      + (if x.userId == uid && x.productId == pid then x.qty else 0)
  {
    SumUpdate(rows, i, x, (r: Row) => if r.userId == uid && r.productId == pid then r.qty else 0);
  }

  lemma UserQtyAppend(rows: seq<Row>, x: Row, uid: int, pid: int)
    ensures UserQty(rows + [x], uid, pid) ==
      UserQty(rows, uid, pid) + (if x.userId == uid && x.productId == pid then x.qty else 0)
  {
    SumConcat(rows, [x], (r: Row) => if r.userId == uid && r.productId == pid then r.qty else 0);
    assert [x][..0] == [];
  }

  /**
   * A user's add grows that user's quantity of the product by the amount added and
   * changes no other (user, product) quantity; it keeps one row per pair.
   */
  lemma {:induction false} UserAddEffect(rows: seq<Row>, uid: int, pid: int, qty: int)
    ensures var r := UserAdd(rows, uid, pid, qty);
      && (forall u, p :: UserQty(r, u, p) == UserQty(rows, u, p) + (if u == uid && p == pid then qty else 0))
      && (OneRowPerProduct(rows) ==> OneRowPerProduct(r))
  {
    var i := RowIndex(rows, uid, pid);
    var r := UserAdd(rows, uid, pid, qty);
    forall u, p ensures UserQty(r, u, p) == UserQty(rows, u, p) + (if u == uid && p == pid then qty else 0) {
      if i == -1 {
        UserQtyAppend(rows, Row(uid, pid, qty), u, p);
      } else {
        UserQtyUpdate(rows, i, rows[i].(qty := rows[i].qty + qty), u, p);
      }
    }
  }

  /** Adding keeps one row per (user, product) pair. */
  lemma UserAddKeepsOneRow(rows: seq<Row>, uid: int, pid: int, qty: int)
    requires OneRowPerProduct(rows)
    ensures OneRowPerProduct(UserAdd(rows, uid, pid, qty))
  {
  }

  /**
   * After the merge, each product's quantity in the user's cart is the old quantity
   * (zero if there was no row) plus the guest quantity; other users' carts are untouched,
   * and no (user, product) pair gains a second row.
   */
  lemma {:induction false} MergeEffect(rows: seq<Row>, uid: int, guest: seq<Line>)
    ensures var r := Merge(rows, uid, guest);
      && (forall p :: UserQty(r, uid, p) == UserQty(rows, uid, p) + QtyOf(guest, p))
      && (forall u, p :: u != uid ==> UserQty(r, u, p) == UserQty(rows, u, p))
      && (OneRowPerProduct(rows) ==> OneRowPerProduct(r))
  {
    if guest != [] {
      var init := guest[..|guest| - 1];
      var last := guest[|guest| - 1];
      MergeEffect(rows, uid, init);
      UserAddEffect(Merge(rows, uid, init), uid, last.productId, last.qty);
      assert guest == init + [last];
      forall p ensures QtyOf(guest, p) == QtyOf(init, p) + (if last.productId == p then last.qty else 0) {
        QtyOfAppend(init, last, p);
      }
    }
  }

  /**
   * Setting a quantity leaves every other (user, product) pair alone, and the pair's
   * quantity becomes the new value when it has exactly one row, and stays zero when it
   * has none: the update reports success either way.
   */
  lemma UserSetQtyEffect(rows: seq<Row>, uid: int, pid: int, qty: int)
    requires OneRowPerProduct(rows)
    ensures var r := UserSetQty(rows, uid, pid, qty);
      && (forall u, p :: !(u == uid && p == pid) ==> UserQty(r, u, p) == UserQty(rows, u, p))
      && UserQty(r, uid, pid) == (if RowIndex(rows, uid, pid) == -1 then 0 else qty)
      && OneRowPerProduct(r)
  {
    UserSetQtyKeepsOneRow(rows, uid, pid, qty);
    UserSetQtyKeepsOthers(rows, uid, pid, qty);
    UserSetQtyTarget(rows, uid, pid, qty);
  }

  /** Rows of other users and products keep their quantities. */
  lemma UserSetQtyKeepsOthers(rows: seq<Row>, uid: int, pid: int, qty: int)
    ensures var r := UserSetQty(rows, uid, pid, qty);
      forall u, p :: !(u == uid && p == pid) ==> UserQty(r, u, p) == UserQty(rows, u, p)
  {
    var r := UserSetQty(rows, uid, pid, qty);
    forall u, p | !(u == uid && p == pid) ensures UserQty(r, u, p) == UserQty(rows, u, p) {
      SetQtySum(rows, uid, pid, qty, u, p);
    }
  }

  /** The updated pair holds the new quantity, or stays at zero when it had no row. */
  lemma UserSetQtyTarget(rows: seq<Row>, uid: int, pid: int, qty: int)
    requires OneRowPerProduct(rows)
    ensures UserQty(UserSetQty(rows, uid, pid, qty), uid, pid) == (if RowIndex(rows, uid, pid) == -1 then 0 else qty)
  {
    var r := UserSetQty(rows, uid, pid, qty);
    UserSetQtyKeepsOneRow(rows, uid, pid, qty);
    var i := RowIndex(rows, uid, pid);
    if i == -1 {
      UserQtyAbsent(r, uid, pid);
    } else {
      UserQtyUpdate(r, i, r[i].(productId := pid + 1), uid, pid);
      UserQtyAbsent(r[i := r[i].(productId := pid + 1)], uid, pid);
    }
  }

  /** Setting a quantity keeps every row's user and product, so one row per pair stays one. */
  lemma UserSetQtyKeepsOneRow(rows: seq<Row>, uid: int, pid: int, qty: int)
    requires OneRowPerProduct(rows)
    ensures OneRowPerProduct(UserSetQty(rows, uid, pid, qty))
  {
    var r := UserSetQty(rows, uid, pid, qty);
    forall i, j | 0 <= i < j < |r|
      ensures r[i].userId != r[j].userId || r[i].productId != r[j].productId
    {
      assert r[i].userId == rows[i].userId && r[i].productId == rows[i].productId;
      assert r[j].userId == rows[j].userId && r[j].productId == rows[j].productId;
    }
  }

  /** Setting a quantity keeps every line's product, so one line per product stays one. */
  lemma GuestSetQtyKeepsOneLine(lines: seq<Line>, pid: int, qty: int)
    requires OneLinePerProduct(lines)
    ensures OneLinePerProduct(GuestSetQty(lines, pid, qty))
  {
    var r := GuestSetQty(lines, pid, qty);
    forall i, j | 0 <= i < j < |r|
      ensures r[i].productId != r[j].productId
    {
      assert r[i].productId == lines[i].productId && r[j].productId == lines[j].productId;
    }
  }

  lemma UserQtyAbsent(rows: seq<Row>, uid: int, pid: int)
    requires forall j :: 0 <= j < |rows| ==> !(rows[j].userId == uid && rows[j].productId == pid)
    ensures UserQty(rows, uid, pid) == 0
  {
    SumZero(rows, (r: Row) => if r.userId == uid && r.productId == pid then r.qty else 0);
  }

  lemma {:induction false} SetQtySum(rows: seq<Row>, uid: int, pid: int, qty: int, u: int, p: int)
    requires !(u == uid && p == pid)
    ensures UserQty(UserSetQty(rows, uid, pid, qty), u, p) == UserQty(rows, u, p)
  {
    if rows != [] {
      var init := rows[..|rows| - 1];
      SetQtySum(init, uid, pid, qty, u, p);
      assert UserSetQty(rows, uid, pid, qty)[..|rows| - 1] == UserSetQty(init, uid, pid, qty);
    }
  }

  /** A user's remove takes the pair's quantity to zero and leaves every other pair alone. */
  lemma {:induction false} UserRemoveEffect(rows: seq<Row>, uid: int, pid: int, u: int, p: int)
    ensures UserQty(UserRemove(rows, uid, pid), u, p) == if u == uid && p == pid then 0 else UserQty(rows, u, p)
  {
    if rows != [] {
      var init := rows[..|rows| - 1];
      var last := rows[|rows| - 1];
      assert rows == init + [last];
      var kept := UserRemove(init, uid, pid);
      UserRemoveEffect(init, uid, pid, u, p);
      UserQtyAppend(init, last, u, p);
      if !(last.userId == uid && last.productId == pid) {
        assert UserRemove(rows, uid, pid) == kept + [last];
        UserQtyAppend(kept, last, u, p);
      } else {
        assert UserRemove(rows, uid, pid) == kept;
      }
    }
  }

  /** Removing rows keeps the table free of duplicate (user, product) pairs. */
  lemma {:induction false} UserRemoveKeepsOneRow(rows: seq<Row>, uid: int, pid: int)
    requires OneRowPerProduct(rows)
    ensures OneRowPerProduct(UserRemove(rows, uid, pid))
  {
    if rows != [] {
      var init := rows[..|rows| - 1];
      var last := rows[|rows| - 1];
      UserRemoveKeepsOneRow(init, uid, pid);
      var kept := UserRemove(init, uid, pid);
      if !(last.userId == uid && last.productId == pid) {
        assert UserRemove(rows, uid, pid) == kept + [last];
        forall i | 0 <= i < |kept| ensures kept[i].userId != last.userId || kept[i].productId != last.productId {
          assert kept[i] in init;
          var k :| 0 <= k < |init| && init[k] == kept[i];
          assert rows[k] == kept[i];
        }
      } else {
        assert UserRemove(rows, uid, pid) == kept;
      }
    }
  }

  /** The rows `Cart.findAll({ where: { user_id } })` returns, in table order. */
  function RowsOf(rows: seq<Row>, uid: int): seq<Row>
  {
    Filter(rows, (r: Row) => r.userId == uid)
  }

  /** The items of `uid`'s cart: one per row of that user (UserItemsAreRows says which). */
  function UserItems(rows: seq<Row>, uid: int, priceOf: int -> Option<nat>): (items: seq<Priced>)
    ensures |items| <= |rows|
  {
    if rows == [] then []
    else
      var last := rows[|rows| - 1];
      UserItems(rows[..|rows| - 1], uid, priceOf)
        + if last.userId == uid then [Priced(priceOf(last.productId), last.qty)] else []
  }

  /**
   * The user's cart lists that user's rows in table order, each with its quantity and the
   * live price of its product (`None` when the product is gone).
   */
  lemma {:induction false} UserItemsAreRows(rows: seq<Row>, uid: int, priceOf: int -> Option<nat>)
    ensures |UserItems(rows, uid, priceOf)| == |RowsOf(rows, uid)|
    ensures var items := UserItems(rows, uid, priceOf);
      forall i :: 0 <= i < |items| ==>
        items[i] == Priced(priceOf(RowsOf(rows, uid)[i].productId), RowsOf(rows, uid)[i].qty)
  {
    if rows != [] {
      var init, last := rows[..|rows| - 1], rows[|rows| - 1];
      UserItemsAreRows(init, uid, priceOf);
      UserItemsSnoc(rows, uid, priceOf);
      assert rows == init + [last];
      FilterConcat(init, [last], (r: Row) => r.userId == uid);
      assert [last][..0] == [];
    }
  }

  /** A row's share of `uid`'s subtotal: live price × quantity for a row of that user. */
  function UserTerm(uid: int, priceOf: int -> Option<nat>): Row -> int
  {
    (r: Row) => if r.userId == uid then priceOf(r.productId).GetOr(0) * r.qty else 0
  }

  /** Appending an item extends the subtotal by its price × quantity, or makes it NaN. */
  lemma SubtotalSnoc(items: seq<Priced>, x: Priced)
    ensures Subtotal(items + [x])
         == if Subtotal(items).Some? && x.price.Some? then Some(Subtotal(items).value + x.price.value * x.qty) else None
  {
    assert (items + [x])[..|items|] == items;
  }

  lemma UserItemsSnoc(rows: seq<Row>, uid: int, priceOf: int -> Option<nat>)
    requires rows != []
    ensures var last := rows[|rows| - 1];
      UserItems(rows, uid, priceOf)
        == UserItems(rows[..|rows| - 1], uid, priceOf) + if last.userId == uid then [Priced(priceOf(last.productId), last.qty)] else []
  {
  }

  /**
   * With every product of the user's rows still present, the logged-in subtotal is
   * Σ live price × quantity over that user's rows; rows of other users count nothing.
   */
  lemma {:induction false} UserSubtotal(rows: seq<Row>, uid: int, priceOf: int -> Option<nat>)
    requires forall i :: 0 <= i < |rows| && rows[i].userId == uid ==> priceOf(rows[i].productId).Some?
    ensures Subtotal(UserItems(rows, uid, priceOf)) == Some(Sum(rows, UserTerm(uid, priceOf)))
  {
    if rows != [] {
      var init, last := rows[..|rows| - 1], rows[|rows| - 1];
      var f := UserTerm(uid, priceOf);
      PricedPrefix(rows, uid, priceOf);
      UserSubtotal(init, uid, priceOf);
      var prev := UserItems(init, uid, priceOf);
      var x := if last.userId == uid then [Priced(priceOf(last.productId), last.qty)] else [];
      UserItemsSnoc(rows, uid, priceOf);
      assert UserItems(rows, uid, priceOf) == prev + x;
      UserSubtotalStep(prev, Sum(init, f), last, uid, priceOf);
      assert Sum(rows, f) == Sum(init, f) + f(last);
    }
  }

  /** The user's rows of a prefix are rows of the whole table, so they are priced too. */
  lemma PricedPrefix(rows: seq<Row>, uid: int, priceOf: int -> Option<nat>)
    requires rows != []
    requires forall i :: 0 <= i < |rows| && rows[i].userId == uid ==> priceOf(rows[i].productId).Some?
    ensures var init := rows[..|rows| - 1];
      forall i :: 0 <= i < |init| && init[i].userId == uid ==> priceOf(init[i].productId).Some?
    ensures rows[|rows| - 1].userId == uid ==> priceOf(rows[|rows| - 1].productId).Some?
  {
    var init := rows[..|rows| - 1];
    forall i | 0 <= i < |init| && init[i].userId == uid
      ensures priceOf(init[i].productId).Some?
    {
      assert init[i] == rows[i];
    }
  }

  /** One more row adds its share to the subtotal. */
  lemma UserSubtotalStep(prev: seq<Priced>, acc: int, last: Row, uid: int, priceOf: int -> Option<nat>)
    requires Subtotal(prev) == Some(acc)
    requires last.userId == uid ==> priceOf(last.productId).Some?
    ensures Subtotal(prev + if last.userId == uid then [Priced(priceOf(last.productId), last.qty)] else [])
         == Some(acc + UserTerm(uid, priceOf)(last))
  {
    if last.userId == uid {
      SubtotalSnoc(prev, Priced(priceOf(last.productId), last.qty));
    } else {
      assert prev + [] == prev;
    }
  }

  // ---------------------------------------------------------------------------
  // Favourites: POST /favoriler/toggle

  /** The pair is removed when present and added when absent; `isFavorite` says which. */
  function Toggle(favorites: set<(int, int)>, uid: int, pid: int): (r: (set<(int, int)>, bool))
    ensures r.1 <==> (uid, pid) !in favorites
    ensures (uid, pid) in r.0 <==> r.1
    ensures forall k :: k != (uid, pid) ==> (k in r.0 <==> k in favorites)
  {
    if (uid, pid) in favorites then (favorites - {(uid, pid)}, false)
    else (favorites + {(uid, pid)}, true)
  }

  /** Toggling twice restores the set. */
  lemma ToggleTwice(favorites: set<(int, int)>, uid: int, pid: int)
    ensures Toggle(Toggle(favorites, uid, pid).0, uid, pid).0 == favorites
  {
  }

  // ---------------------------------------------------------------------------
  // The guest remove as written, over the values JavaScript compares

  /** The values an `urun_id` takes: what the client sent, or what `parseInt` returns. */
  datatype JsValue = JsNumber(n: int) | JsString(s: string) | JsNaN

  /** `===`: no string is strictly equal to a number, and NaN equals nothing. */
  predicate StrictEquals(a: JsValue, b: JsValue)
  {
    a == b && !a.JsNaN?
  }

  /** `parseInt` on an unsigned decimal: the value of the leading digits, or NaN when there are none. */
  function ParseInt(s: string): JsValue
  {
    var n := LeadingDigits(s);
    if n == 0 then JsNaN else JsNumber(DigitsValue(s[..n]))
  }

  function LeadingDigits(s: string): (n: nat)
    ensures n <= |s| && AllDigits(s[..n])
  {
    if s != [] && IsDigit(s[0]) then
      var n := LeadingDigits(s[1..]);
      assert s[..n + 1] == [s[0]] + s[1..][..n];
      n + 1
    else 0
  }

  /** A session line whose `urun_id` is whatever the request body carried. */
  datatype StoredLine = StoredLine(productId: JsValue, qty: int, product: Snapshot)

  /** `sessionCart.filter(item => item.urun_id !== parseInt(urun_id))`, as written. */
  function RemoveAsWritten(lines: seq<StoredLine>, param: string): seq<StoredLine>
  {
    Filter(lines, (l: StoredLine) => !StrictEquals(l.productId, ParseInt(param)))
  }

  /**
   * Lines added from the storefront UI store the id as a string, so the as-written remove
   * keeps every one of them, whatever the route parameter: the guest's remove never removes.
   */
  lemma RemoveAsWrittenKeepsStringIds(lines: seq<StoredLine>, param: string)
    requires forall i :: 0 <= i < |lines| ==> lines[i].productId.JsString?
    ensures RemoveAsWritten(lines, param) == lines
  {
    FilterKeepsAll(lines, (l: StoredLine) => !StrictEquals(l.productId, ParseInt(param)));
  }

  /**
   * `sessionCart.findIndex(item => item.urun_id === urun_id)` then `adet = parseInt(adet)`,
   * as written: the quantity buttons send the id as a JSON number (public/js/main.js:111-113,
   * 353), while the line holds the string the add button sent.
   */
  function SetQtyAsWritten(lines: seq<StoredLine>, sent: JsValue, qty: int): seq<StoredLine>
  {
    var i := FirstIndex(lines, (l: StoredLine) => StrictEquals(l.productId, sent));
    if i == -1 then lines else lines[i := lines[i].(qty := qty)]
  }

  /** With string ids stored and a number sent, the as-written update matches no line. */
  lemma SetQtyAsWrittenKeepsStringIds(lines: seq<StoredLine>, n: int, qty: int)
    requires forall i :: 0 <= i < |lines| ==> lines[i].productId.JsString?
    ensures SetQtyAsWritten(lines, JsNumber(n), qty) == lines
  {
    assert forall i :: 0 <= i < |lines| ==> !StrictEquals(lines[i].productId, JsNumber(n));
  }

  /**
   * The concrete case: the "+" button on a line added as `"5"` sends `urun_id: 5` and the
   * quantity stays 1, while the intended update sets it to 2.
   */
  lemma SetQtyAsWrittenExample(snapshot: Snapshot)
    ensures SetQtyAsWritten([StoredLine(JsString("5"), 1, snapshot)], JsNumber(5), 2) == [StoredLine(JsString("5"), 1, snapshot)]
    ensures GuestSetQty([Line(5, 1, snapshot)], 5, 2) == [Line(5, 2, snapshot)]
  {
    SetQtyAsWrittenKeepsStringIds([StoredLine(JsString("5"), 1, snapshot)], 5, 2);
    assert LineIndex([Line(5, 1, snapshot)], 5) == 0;
  }

  /** The concrete case: a line added as `"5"` survives `DELETE /api/sepet/sil/5`. */
  lemma RemoveAsWrittenExample(snapshot: Snapshot)
    ensures RemoveAsWritten([StoredLine(JsString("5"), 1, snapshot)], "5") == [StoredLine(JsString("5"), 1, snapshot)]
    ensures GuestRemove([Line(5, 1, snapshot)], 5) == []
  {
    RemoveAsWrittenKeepsStringIds([StoredLine(JsString("5"), 1, snapshot)], "5");
  }
}
