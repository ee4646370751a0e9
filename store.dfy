/**
 * The cart and session handlers as one object: the session (`req.session.user`,
 * `sessionCart`, `returnTo`, the cookie's `maxAge`), the `sepet` table, the
 * `favoriler` table and the product and user tables they read. Each handler is a
 * method that changes these fields as the route does (routes/api.js:156-337,
 * routes/auth.js:24-125,212-219); the loops it runs are the methods before the class,
 * each proved to compute the Cart function it implements.
 */
module Store {
  import opened Wrappers
  import opened Seqs
  import opened Cart
  import opened Guards
  import Catalog
  import Auth

  /** `Product.findOne({ where: { id: urun_id, durum: 1 } })`. */
  function ActiveProductIndex(products: seq<Catalog.Product>, pid: int): int
  {
    FirstIndex(products, (p: Catalog.Product) => p.id == pid && Catalog.IsActive(p))
  }

  /** The price of the product a cart row joins to, whatever its status; `None` when it is gone. */
  function LivePrice(products: seq<Catalog.Product>, pid: int): Option<nat>
  {
    var i := FirstIndex(products, (p: Catalog.Product) => p.id == pid);
    if i == -1 then None else Some(products[i].price)
  }

  /** `Cart.findAll({ where: { user_id }, include: urun })`: the user's rows priced by the joined product. */
  function UserCartItems(rows: seq<Row>, uid: int, products: seq<Catalog.Product>): seq<Priced>
  {
    UserItems(rows, uid, (pid: int) => LivePrice(products, pid))
  }

  /** The product fields a new guest line copies (routes/api.js:246-253). */
  function SnapshotOf(p: Catalog.Product): Snapshot
  {
    Snapshot(p.id, p.name, p.partNo, p.price, p.slug)
  }

  // ---------------------------------------------------------------------------
  // The loops the handlers run

  method FindLine(lines: seq<Line>, pid: int) returns (i: int)
    ensures i == LineIndex(lines, pid)
  {
    i := 0;
    while i < |lines| && lines[i].productId != pid
      invariant 0 <= i <= |lines|
      invariant forall j :: 0 <= j < i ==> lines[j].productId != pid
    {
      i := i + 1;
    }
    if i == |lines| {
      i := -1;
    }
  }

  method FindRow(rows: seq<Row>, uid: int, pid: int) returns (i: int)
    ensures i == RowIndex(rows, uid, pid)
  {
    i := 0;
    while i < |rows| && !(rows[i].userId == uid && rows[i].productId == pid)
      invariant 0 <= i <= |rows|
      invariant forall j :: 0 <= j < i ==> !(rows[j].userId == uid && rows[j].productId == pid)
    {
      i := i + 1;
    }
    if i == |rows| {
      i := -1;
    }
  }

  method FindActiveProduct(products: seq<Catalog.Product>, pid: int) returns (i: int)
    ensures i == ActiveProductIndex(products, pid)
  {
    i := 0;
    while i < |products| && !(products[i].id == pid && Catalog.IsActive(products[i]))
      invariant 0 <= i <= |products|
      invariant forall j :: 0 <= j < i ==> !(products[j].id == pid && Catalog.IsActive(products[j]))
    {
      i := i + 1;
    }
    if i == |products| {
      i := -1;
    }
  }

  /** The `filter` of the guest remove. */
  method RemoveLines(lines: seq<Line>, pid: int) returns (kept: seq<Line>)
    ensures kept == GuestRemove(lines, pid)
  {
    kept := [];
    var i := 0;
    while i < |lines|
      invariant 0 <= i <= |lines|
      invariant kept == GuestRemove(lines[..i], pid)
    {
      assert lines[..i + 1][..i] == lines[..i];
      if lines[i].productId != pid {
        kept := kept + [lines[i]];
      }
      i := i + 1;
    }
    assert lines[..|lines|] == lines;
  }

  /** `Cart.destroy` over every matching row. */
  method DestroyRows(rows: seq<Row>, uid: int, pid: int) returns (kept: seq<Row>)
    ensures kept == UserRemove(rows, uid, pid)
  {
    kept := [];
    var i := 0;
    while i < |rows|
      invariant 0 <= i <= |rows|
      invariant kept == UserRemove(rows[..i], uid, pid)
    {
      assert rows[..i + 1][..i] == rows[..i];
      if !(rows[i].userId == uid && rows[i].productId == pid) {
        kept := kept + [rows[i]];
      }
      i := i + 1;
    }
    assert rows[..|rows|] == rows;
  }

  /** `Cart.update` over every matching row. */
  method UpdateRows(rows: seq<Row>, uid: int, pid: int, qty: int) returns (updated: seq<Row>)
    ensures updated == UserSetQty(rows, uid, pid, qty)
  {
    updated := rows;
    var i := 0;
    while i < |rows|
      invariant 0 <= i <= |rows| && |updated| == |rows|
      invariant forall j :: 0 <= j < i ==> updated[j] == UserSetQty(rows, uid, pid, qty)[j]
      invariant forall j :: i <= j < |rows| ==> updated[j] == rows[j]
    {
      if rows[i].userId == uid && rows[i].productId == pid {
        updated := updated[i := rows[i].(qty := qty)];
      }
      i := i + 1;
    }
  }

  /** The `forEach` of GET /sepet: `araToplam += fiyat * item.adet` (routes/api.js:176-180). */
  method SumSubtotal(items: seq<Priced>) returns (total: Option<int>)
    ensures total == Subtotal(items)
  {
    total := Some(0);
    var i := 0;
    while i < |items|
      invariant 0 <= i <= |items|
      invariant total == Subtotal(items[..i])
    {
      assert items[..i + 1][..i] == items[..i];
      if total.Some? && items[i].price.Some? {
        total := Some(total.value + items[i].price.value * items[i].qty);
      } else {
        total := None;
      }
      i := i + 1;
    }
    assert items[..|items|] == items;
  }

  /** The login merge loop (routes/auth.js:91-106): one upsert per guest line, in order. */
  method MergeRows(rows: seq<Row>, uid: int, guest: seq<Line>) returns (merged: seq<Row>)
    ensures merged == Merge(rows, uid, guest)
  {
    merged := rows;
    var k := 0;
    while k < |guest|
      invariant 0 <= k <= |guest|
      invariant merged == Merge(rows, uid, guest[..k])
    {
      assert guest[..k + 1][..k] == guest[..k];
      var item := guest[k];
      var j := FindRow(merged, uid, item.productId);
      if j != -1 {
        merged := merged[j := merged[j].(qty := merged[j].qty + item.qty)];
      } else {
        merged := merged + [Row(uid, item.productId, item.qty)];
      }
      k := k + 1;
    }
    assert guest[..|guest|] == guest;
  }

  // ---------------------------------------------------------------------------
  // The session and the tables

  datatype CartReply = CartOk | ProductNotFound | NotEnoughStock | QuantityTooSmall | NotLoggedIn

  datatype LoginReply = AlreadyLoggedIn | FormShown(outcome: Auth.LoginOutcome) | RedirectedTo(path: string)

  class Shop {
    var products: seq<Catalog.Product>
    var accounts: seq<Auth.Account>
    var user: Option<SessionUser>
    var guestCart: Option<seq<Line>>
    var rows: seq<Row>
    var favorites: set<(int, int)>
    var returnTo: Option<string>
    var cookieMaxAge: Option<int>

    /** One line per product in the guest cart and one row per (user, product) in the table. */
    predicate Valid()
      reads this
    {
      (guestCart.Some? ==> OneLinePerProduct(guestCart.value)) && OneRowPerProduct(rows)
    }

    /** A fresh session over the given tables. */
    constructor(products: seq<Catalog.Product>, accounts: seq<Auth.Account>)
      ensures Valid()
      ensures this.products == products && this.accounts == accounts
      ensures user.None? && guestCart.None? && rows == [] && favorites == {}
      ensures returnTo.None? && cookieMaxAge.None?
    {
      this.products := products;
      this.accounts := accounts;
      user := None;
      guestCart := None;
      rows := [];
      favorites := {};
      returnTo := None;
      cookieMaxAge := None;
    }

    /**
     * POST /api/sepet/ekle (routes/api.js:197-263). The quantity defaults to 1; an unknown
     * or inactive product and a requested amount above the stock are refused with nothing
     * changed; the stock is compared with the requested amount alone, not with what the
     * cart already holds.
     */
    method Add(pid: int, qty: Option<int>) returns (reply: CartReply)
      requires Valid()
      modifies this
      ensures Valid()
      ensures var amount := qty.GetOr(1);
        var i := ActiveProductIndex(products, pid);
        && (i == -1 ==> reply == ProductNotFound)
        && (i != -1 && products[i].stock < amount ==> reply == NotEnoughStock)
        && (i != -1 && products[i].stock >= amount ==> reply == CartOk)
        && (reply != CartOk ==> rows == old(rows) && guestCart == old(guestCart))
        && (reply == CartOk && user.Some? ==>
              rows == UserAdd(old(rows), user.value.id, pid, amount) && guestCart == old(guestCart))
        && (reply == CartOk && user.None? ==>
              guestCart == Some(GuestAdd(old(guestCart).GetOr([]), pid, amount, SnapshotOf(products[i])))
              && rows == old(rows))
      ensures products == old(products) && accounts == old(accounts) && user == old(user)
      ensures favorites == old(favorites) && returnTo == old(returnTo) && cookieMaxAge == old(cookieMaxAge)
    {
      var amount := qty.GetOr(1);
      var i := FindActiveProduct(products, pid);
      if i == -1 {
        return ProductNotFound;
      }
      if products[i].stock < amount {
        return NotEnoughStock;
      }
      if user.Some? {
        var uid := user.value.id;
        UserAddKeepsOneRow(rows, uid, pid, amount);
        var j := FindRow(rows, uid, pid);
        if j != -1 {
          rows := rows[j := rows[j].(qty := rows[j].qty + amount)];
        } else {
          rows := rows + [Row(uid, pid, amount)];
        }
        assert rows == UserAdd(old(rows), uid, pid, amount);
      } else {
        var lines := guestCart.GetOr([]);
        GuestAddKeepsOneLine(lines, pid, amount, SnapshotOf(products[i]));
        var j := FindLine(lines, pid);
        if j > -1 {
          lines := lines[j := lines[j].(qty := lines[j].qty + amount)];
        } else {
          lines := lines + [Line(pid, amount, SnapshotOf(products[i]))];
        }
        assert lines == GuestAdd(old(guestCart).GetOr([]), pid, amount, SnapshotOf(products[i]));
        guestCart := Some(lines);
      }
      reply := CartOk;
    }

    /**
     * PUT /api/sepet/guncelle (routes/api.js:266-291). A quantity below 1 is refused with
     * nothing changed; otherwise the matching line or rows get the new quantity, and a
     * missing line changes nothing and still succeeds.
     */
    method Update(pid: int, qty: int) returns (reply: CartReply)
      requires Valid()
      modifies this
      ensures Valid()
      ensures reply == (if qty < 1 then QuantityTooSmall else CartOk)
      ensures qty < 1 ==> rows == old(rows) && guestCart == old(guestCart)
      ensures qty >= 1 && user.Some? ==>
        rows == UserSetQty(old(rows), user.value.id, pid, qty) && guestCart == old(guestCart)
      ensures qty >= 1 && user.None? ==>
        && rows == old(rows)
        && guestCart == (if old(guestCart).None? then None else Some(GuestSetQty(old(guestCart).value, pid, qty)))
      ensures products == old(products) && accounts == old(accounts) && user == old(user)
      ensures favorites == old(favorites) && returnTo == old(returnTo) && cookieMaxAge == old(cookieMaxAge)
    {
      if qty < 1 {
        return QuantityTooSmall;
      }
      if user.Some? {
        UserSetQtyKeepsOneRow(rows, user.value.id, pid, qty);
        rows := UpdateRows(rows, user.value.id, pid, qty);
      } else if guestCart.Some? {
        var lines := guestCart.value;
        GuestSetQtyKeepsOneLine(lines, pid, qty);
        var j := FindLine(lines, pid);
        if j > -1 {
          guestCart := Some(lines[j := lines[j].(qty := qty)]);
        }
        assert guestCart == Some(GuestSetQty(lines, pid, qty));
      }
      reply := CartOk;
    }

    /**
     * DELETE /api/sepet/sil/:urun_id (routes/api.js:294-313): every line or row of the
     * product goes, the rest stay in order, and the reply is success whether or not
     * anything matched.
     */
    method Remove(pid: int) returns (reply: CartReply)
      requires Valid()
      modifies this
      ensures Valid()
      ensures reply == CartOk
      ensures user.Some? ==> rows == UserRemove(old(rows), user.value.id, pid) && guestCart == old(guestCart)
      ensures user.None? ==>
        && rows == old(rows)
        && guestCart == (if old(guestCart).None? then None else Some(GuestRemove(old(guestCart).value, pid)))
      ensures products == old(products) && accounts == old(accounts) && user == old(user)
      ensures favorites == old(favorites) && returnTo == old(returnTo) && cookieMaxAge == old(cookieMaxAge)
    {
      if user.Some? {
        rows := DestroyRows(rows, user.value.id, pid);
        UserRemoveKeepsOneRow(old(rows), user.value.id, pid);
      } else if guestCart.Some? {
        GuestRemoveEffect(guestCart.value, pid, [], []);
        var kept := RemoveLines(guestCart.value, pid);
        guestCart := Some(kept);
      }
      reply := CartOk;
    }

    /**
     * GET /api/sepet (routes/api.js:156-194): the user's rows priced by the live product
     * price, or the guest lines priced by their snapshots; the subtotal over them; and
     * `adet`, which counts items, not quantities.
     */
    method GetCart() returns (items: seq<Priced>, subtotal: Option<int>, count: nat)
      ensures items == if user.Some? then UserCartItems(rows, user.value.id, products)
                       else GuestItems(guestCart.GetOr([]))
      ensures subtotal == Subtotal(items)
      ensures count == |items|
      ensures user.None? ==> subtotal.Some?
    {
      if user.Some? {
        items := UserCartItems(rows, user.value.id, products);
      } else {
        items := GuestItems(guestCart.GetOr([]));
        GuestSubtotal(guestCart.GetOr([]));
      }
      subtotal := SumSubtotal(items);
      count := |items|;
    }

    /**
     * POST /api/favoriler/toggle behind `isAuthenticated` (routes/api.js:319-337): `None`
     * when nobody is logged in (the guard redirects), else whether the product is now a
     * favourite.
     */
    method ToggleFavorite(pid: int) returns (isFavorite: Option<bool>)
      modifies this
      ensures old(user).None? ==> isFavorite.None? && favorites == old(favorites)
      ensures old(user).Some? ==>
        var t := Toggle(old(favorites), old(user).value.id, pid);
        isFavorite == Some(t.1) && favorites == t.0
      ensures products == old(products) && accounts == old(accounts) && user == old(user)
      ensures rows == old(rows) && guestCart == old(guestCart)
      ensures returnTo == old(returnTo) && cookieMaxAge == old(cookieMaxAge)
    {
      if user.None? {
        return None;
      }
      var key := (user.value.id, pid);
      if key in favorites {
        favorites := favorites - {key};
        isFavorite := Some(false);
      } else {
        favorites := favorites + {key};
        isFavorite := Some(true);
      }
    }

    /**
     * POST /auth/giris behind `isGuest` (routes/auth.js:24-125). A refused login changes
     * nothing. A successful one stores the session user, sets the cookie lifetime when
     * remember-me is ticked, merges a non-empty guest cart into the table and drops it, and
     * redirects to `returnTo` or home, clearing `returnTo`.
     */
    method Login(form: Auth.LoginForm, emailValid: bool, passwordMatches: (Auth.Account, string) -> bool)
      returns (reply: LoginReply)
      requires Valid()
      modifies this
      ensures Valid()
      ensures old(user).Some? ==> reply == AlreadyLoggedIn
      ensures var o := Auth.DecideLogin(accounts, form, emailValid, passwordMatches);
        old(user).None? ==>
          && (!o.LoggedIn? ==> reply == FormShown(o))
          && (o.LoggedIn? ==> reply == RedirectedTo(Auth.RedirectAfterLogin(old(returnTo))))
      ensures reply.RedirectedTo? <==> (old(user).None? && Auth.DecideLogin(accounts, form, emailValid, passwordMatches).LoggedIn?)
      ensures !reply.RedirectedTo? ==>
        user == old(user) && rows == old(rows) && guestCart == old(guestCart)
        && returnTo == old(returnTo) && cookieMaxAge == old(cookieMaxAge)
      ensures reply.RedirectedTo? ==>
        var u := Auth.DecideLogin(accounts, form, emailValid, passwordMatches).user;
        var guestLines := old(guestCart).GetOr([]);
        && user == Some(u)
        && cookieMaxAge == (if form.rememberMe then Some(Auth.RememberMeMaxAge) else old(cookieMaxAge))
        && rows == Merge(old(rows), u.id, guestLines)
        && guestCart == (if guestLines == [] then old(guestCart) else None)
        && returnTo.None?
      ensures products == old(products) && accounts == old(accounts) && favorites == old(favorites)
    {
      if user.Some? {
        return AlreadyLoggedIn;
      }
      var outcome := Auth.DecideLogin(accounts, form, emailValid, passwordMatches);
      if !outcome.LoggedIn? {
        return FormShown(outcome);
      }
      user := Some(outcome.user);
      if form.rememberMe {
        cookieMaxAge := Some(Auth.RememberMeMaxAge);
      }
      if guestCart.Some? && |guestCart.value| > 0 {
        MergeEffect(rows, outcome.user.id, guestCart.value);
        rows := MergeRows(rows, outcome.user.id, guestCart.value);
        guestCart := None;
      }
      var target := Auth.RedirectAfterLogin(returnTo);
      returnTo := None;
      reply := RedirectedTo(target);
    }

    /** GET /auth/cikis behind `isAuthenticated` (routes/auth.js:212-219): the session is destroyed. */
    method Logout() returns (d: Decision)
      modifies this
      ensures old(user).None? ==>
        && d == Redirect(LoginPath) && user == old(user) && guestCart == old(guestCart)
        && returnTo == old(returnTo) && cookieMaxAge == old(cookieMaxAge)
      ensures old(user).Some? ==>
        && d == Redirect(HomePath) && user.None? && guestCart.None?
        && returnTo.None? && cookieMaxAge.None?
      ensures products == old(products) && accounts == old(accounts) && rows == old(rows) && favorites == old(favorites)
    {
      if user.None? {
        return Redirect(LoginPath);
      }
      user := None;
      guestCart := None;
      returnTo := None;
      cookieMaxAge := None;
      d := Redirect(HomePath);
    }
  }
}
