/**
 * Orders, payments and the library: a checkout opens a PENDING order for one
 * movie at its current price, paying it hands the order's amount and id to the
 * payment provider, the provider's `checkout.session.completed` event marks
 * the order PAID and records the payment, and the library lists the movies
 * of the caller's PAID orders.
 */
module Payments {
  import opened Results
  import opened Http
  import Jwt
  import AccountRecords
  import AuthGate
  import Paging
  import opened Catalog
  import MovieRoutes

  type OrderId = nat

  /** `OrderStatus`. */
  datatype OrderStatus = Pending | Paid | Canceled

  /** `OrderItemModel`: the movie and its price in cents when ordered. */
  datatype OrderItem = OrderItem(movieId: MovieId, priceAtOrder: nat)

  /** `OrderModel` without its creation time; the total is in cents. */
  datatype Order = Order(userId: UserId, status: OrderStatus, totalCents: nat, items: seq<OrderItem>)

  /** `PaymentModel` with status SUCCESSFUL, the only one the webhook records. */
  datatype Payment = Payment(userId: UserId, orderId: OrderId, amountCents: nat, externalId: Option<string>)

  /** What `create_checkout_session` hands the provider: `unit_amount` and the `order_id` metadata. */
  datatype CheckoutSession = CheckoutSession(unitAmountCents: nat, orderId: OrderId)

  /**
   * The event `stripe.Webhook.construct_event` returns: whether the signature
   * checked out, the event type, the session's `order_id` metadata (absent or
   * empty as `None`) and the session id.
   */
  datatype WebhookEvent = WebhookEvent(signatureValid: bool, eventType: string, orderId: Option<nat>, sessionId: Option<string>)

  const CompletedEvent := "checkout.session.completed"

  const HaveMovie := HttpError(BadRequest, "You have a movie.")
  const MovieNotFound := HttpError(NotFound, "Movie not found")
  const OrderNotFound := HttpError(NotFound, "Order not found")
  const OrderAlreadyPaid := HttpError(BadRequest, "Order already paid")
  const LibraryEmpty := HttpError(NotFound, "Library is empty or no movies found")
  /** The 400 of a rejected signature; the provider's message text is not modelled. */
  const SignatureRejected := HttpError(BadRequest, "Invalid signature")
  /** The uncaught `MultipleResultsFound` of `scalar_one_or_none`. */
  const MultipleRows := HttpError(InternalServerError, "Internal Server Error")

  const LibraryBase := "/me/library/"

  /** The PAID orders of a user holding an item for the movie. */
  function PaidOrdersWith(orders: map<OrderId, Order>, userId: UserId, movieId: int): set<OrderId>
  {
    set oid | oid in orders && orders[oid].userId == userId && orders[oid].status == Paid
      && exists i :: 0 <= i < |orders[oid].items| && orders[oid].items[i].movieId == movieId
  }

  /** The user owns the movie: some PAID order of theirs holds it. */
  predicate AlreadyOwned(orders: map<OrderId, Order>, userId: UserId, movieId: int)
  {
    exists oid :: oid in orders && orders[oid].userId == userId && orders[oid].status == Paid
      && exists i :: 0 <= i < |orders[oid].items| && orders[oid].items[i].movieId == movieId
  }

  /**
   * The ownership check as written: one row is 400, but two matching rows
   * make `scalar_one_or_none` raise, which nothing catches.
   */
  function OwnedCheckAsWritten(orders: map<OrderId, Order>, userId: UserId, movieId: int): (r: Option<HttpError>)
    ensures r.None? <==> !AlreadyOwned(orders, userId, movieId)
    ensures r == Some(MultipleRows) <==> |PaidOrdersWith(orders, userId, movieId)| >= 2
  {
    OwnedIffPaidOrders(orders, userId, movieId);
    var n := |PaidOrdersWith(orders, userId, movieId)|;
    if n == 0 then None
    else if n == 1 then Some(HaveMovie)
    else Some(MultipleRows)
  }

  lemma OwnedIffPaidOrders(orders: map<OrderId, Order>, userId: UserId, movieId: int)
    ensures AlreadyOwned(orders, userId, movieId) <==> |PaidOrdersWith(orders, userId, movieId)| > 0
  {
    if AlreadyOwned(orders, userId, movieId) {
      var oid :| oid in orders && orders[oid].userId == userId && orders[oid].status == Paid
        && exists i :: 0 <= i < |orders[oid].items| && orders[oid].items[i].movieId == movieId;
      assert oid in PaidOrdersWith(orders, userId, movieId);
    }
    if |PaidOrdersWith(orders, userId, movieId)| > 0 {
      var oid :| oid in PaidOrdersWith(orders, userId, movieId);
      assert oid in orders && orders[oid].userId == userId && orders[oid].status == Paid;
    }
  }

  /** The ownership check as intended: any matching row is 400. */
  function OwnedCheck(orders: map<OrderId, Order>, userId: UserId, movieId: int): (r: Option<HttpError>)
    ensures r.None? <==> !AlreadyOwned(orders, userId, movieId)
    ensures r.Some? ==> r.value == HaveMovie
  {
    if AlreadyOwned(orders, userId, movieId) then Some(HaveMovie) else None
  }

  /** The ids of the movies of a user's PAID orders. */
  function OwnedMovieIds(orders: map<OrderId, Order>, userId: UserId): (r: set<MovieId>)
    ensures forall mid :: mid in r <==> AlreadyOwned(orders, userId, mid)
  {
    var r := set oid, i | oid in orders && orders[oid].userId == userId && orders[oid].status == Paid
      && 0 <= i < |orders[oid].items| :: orders[oid].items[i].movieId;
    assert forall mid :: AlreadyOwned(orders, userId, mid) ==> mid in r by {
      forall mid | AlreadyOwned(orders, userId, mid)
        ensures mid in r
      {
        var oid :| oid in orders && orders[oid].userId == userId && orders[oid].status == Paid
          && exists i :: 0 <= i < |orders[oid].items| && orders[oid].items[i].movieId == mid;
        var i :| 0 <= i < |orders[oid].items| && orders[oid].items[i].movieId == mid;
      }
    }
    r
  }

  /** The movies among `ms` whose ids are in `ids`, in order (the joins of the library query). */
  function Owned(ms: seq<Movie>, ids: set<MovieId>): (r: seq<Movie>)
    ensures forall m :: m in r <==> m in ms && m.id in ids
  {
    if ms == [] then []
    else
      var rest := Owned(ms[1..], ids);
      assert forall m :: m in ms[1..] ==> m in ms;
      if ms[0].id in ids then [ms[0]] + rest else rest
  }

  /** The joins keep the catalog's id order. */
  lemma {:induction false} OwnedKeepsIdOrder(ms: seq<Movie>, ids: set<MovieId>)
    requires MovieRoutes.IdsIncreasing(ms)
    ensures MovieRoutes.IdsIncreasing(Owned(ms, ids))
  {
    if ms != [] {
      assert MovieRoutes.IdsIncreasing(ms[1..]);
      OwnedKeepsIdOrder(ms[1..], ids);
      var rest := Owned(ms[1..], ids);
      if ms[0].id in ids {
        var r := [ms[0]] + rest;
        forall j | 0 < j < |r|
          ensures r[0].id < r[j].id
        {
          assert r[j] in rest;
          var k :| 0 <= k < |ms[1..]| && ms[1..][k] == r[j];
          assert ms[k + 1] == r[j];
        }
      }
    }
  }

  /** The library's rows: the owned movies matching the filters, under `order_by`. */
  function LibraryOrdered(c: CatalogStore, owned: set<MovieId>, q: MovieRoutes.MovieQuery): seq<Movie>
    reads c, c.stars, c.directors
  {
    MovieRoutes.Sorted(MovieRoutes.Select(c, Owned(c.movies, owned), q.year, q.search), q.sort)
  }

  /** The library page of an owner: an empty result is 404, a page past the end is an empty page. */
  function LibraryPage(c: CatalogStore, owned: set<MovieId>, q: MovieRoutes.MovieQuery): (r: Result<Paging.Page<Movie>, HttpError>)
    reads c, c.stars, c.directors
    ensures MovieRoutes.CheckQuery(q).Some? ==> r == Err(MovieRoutes.CheckQuery(q).value)
    ensures r.Ok? <==> MovieRoutes.CheckQuery(q).None? && |LibraryOrdered(c, owned, q)| > 0
    ensures MovieRoutes.CheckQuery(q).None? && r.Err? ==> r == Err(LibraryEmpty)
    ensures r.Ok? ==>
      && r.value == Paging.Paginate(LibraryOrdered(c, owned, q), q.page as nat, q.perPage as nat, LibraryBase)
      && (forall m :: m in r.value.items ==> m in c.movies && m.id in owned && MovieRoutes.Matches(c, m, q.year, q.search))
  {
    match MovieRoutes.CheckQuery(q)
    case Some(e) => Err(e)
    case None =>
      var xs := LibraryOrdered(c, owned, q);
      if |xs| == 0 then Err(LibraryEmpty)
      else
        var page := Paging.Paginate(xs, q.page as nat, q.perPage as nat, LibraryBase);
        assert forall m :: m in page.items ==> m in xs;
        Ok(page)
  }

  /** Each movie appears at most once in the library, however many PAID orders hold it. */
  lemma LibraryListsEachMovieOnce(c: CatalogStore, owned: set<MovieId>, q: MovieRoutes.MovieQuery)
    requires c.Valid()
    ensures forall i, j :: 0 <= i < j < |LibraryOrdered(c, owned, q)| ==>
      LibraryOrdered(c, owned, q)[i].id != LibraryOrdered(c, owned, q)[j].id
  {
    assert MovieRoutes.IdsIncreasing(c.movies);
    OwnedKeepsIdOrder(c.movies, owned);
    var s := MovieRoutes.Select(c, Owned(c.movies, owned), q.year, q.search);
    assert MovieRoutes.IdsIncreasing(s);
  }

  /** Every owned catalog movie matching the filters has a library page listing it. */
  lemma OwnedMovieListed(c: CatalogStore, owned: set<MovieId>, q: MovieRoutes.MovieQuery, m: Movie)
    requires MovieRoutes.CheckQuery(q).None?
    requires m in c.movies && m.id in owned && MovieRoutes.Matches(c, m, q.year, q.search)
    ensures exists page ::
      && 1 <= page
      && LibraryPage(c, owned, q.(page := page)).Ok?
      && m in LibraryPage(c, owned, q.(page := page)).value.items
  {
    var xs := LibraryOrdered(c, owned, q);
    var i := PositionInLibrary(c, owned, q, m);
    var page, k := Paging.PageOf(xs, q.perPage as nat, i);
    PageIsWindow(c, owned, q, page);
    assert LibraryPage(c, owned, q.(page := page)).value.items[k] == m;
  }

  /** The library page `page` is the window of the ordered rows at that page. */
  lemma PageIsWindow(c: CatalogStore, owned: set<MovieId>, q: MovieRoutes.MovieQuery, page: nat)
    requires MovieRoutes.CheckQuery(q).None? && page >= 1
    requires |Paging.Window(LibraryOrdered(c, owned, q), page, q.perPage as nat)| > 0
    ensures LibraryPage(c, owned, q.(page := page)).Ok?
    ensures LibraryPage(c, owned, q.(page := page)).value.items == Paging.Window(LibraryOrdered(c, owned, q), page, q.perPage as nat)
  {
    var q' := q.(page := page);
    assert LibraryOrdered(c, owned, q') == LibraryOrdered(c, owned, q);
    assert MovieRoutes.CheckQuery(q').None?;
  }

  lemma PositionInLibrary(c: CatalogStore, owned: set<MovieId>, q: MovieRoutes.MovieQuery, m: Movie) returns (i: nat)
    requires m in c.movies && m.id in owned && MovieRoutes.Matches(c, m, q.year, q.search)
    ensures i < |LibraryOrdered(c, owned, q)| && LibraryOrdered(c, owned, q)[i] == m
  {
    var o := Owned(c.movies, owned);
    assert m in o;
    i := MovieRoutes.IndexInSorted(MovieRoutes.Select(c, o, q.year, q.search), q.sort, m);
  }

  class OrderBook {
    var orders: map<OrderId, Order>
    var payments: seq<Payment>
    var nextOrderId: nat

    /**
     * Orders hold one item priced at the order's total; each payment is the
     * only one of its order, which is PAID, and carries its user and total;
     * and every PAID order has its payment.
     */
    ghost predicate Valid()
      reads this
    {
      BookValid(orders, payments, nextOrderId)
    }

    constructor ()
      ensures Valid() && orders == map[] && payments == []
    {
      orders := map[];
      payments := [];
      nextOrderId := 1;
    }

    /** `checkout_movie`: a new PENDING order for a movie the caller does not own. */
    method Checkout(users: map<UserId, AccountRecords.User>, token: Jwt.Jwt, c: CatalogStore, movieId: int)
      returns (r: Result<(OrderId, Order), HttpError>)
      requires Valid()
      modifies this`orders, this`nextOrderId
      ensures Valid()
      ensures AuthGate.CurrentUser(users, token).Err? ==> r == Err(AuthGate.CurrentUser(users, token).error) && unchanged(this)
      ensures AuthGate.CurrentUser(users, token).Ok? ==>
        var uid := AuthGate.CurrentUser(users, token).value.id;
        && (AlreadyOwned(old(orders), uid, movieId) ==> r == Err(HaveMovie) && unchanged(this))
        && (!AlreadyOwned(old(orders), uid, movieId) && c.GetMovie(movieId).Err? ==> r == Err(MovieNotFound) && unchanged(this))
        && (!AlreadyOwned(old(orders), uid, movieId) && c.GetMovie(movieId).Ok? ==>
              var price := c.GetMovie(movieId).value.priceCents;
              && r == Ok((old(nextOrderId), Order(uid, Pending, price, [OrderItem(movieId as nat, price)])))
              && old(nextOrderId) !in old(orders)
              && orders == old(orders)[old(nextOrderId) := r.value.1]
              && nextOrderId == old(nextOrderId) + 1)
    {
      var gate := AuthGate.CurrentUser(users, token);
      if gate.Err? {
        return Err(gate.error);
      }
      var uid := gate.value.id;
      if OwnedCheck(orders, uid, movieId).Some? {
        return Err(HaveMovie);
      }
      var movie := c.GetMovie(movieId);
      if movie.Err? {
        return Err(MovieNotFound);
      }
      var price := movie.value.priceCents;
      var order := Order(uid, Pending, price, [OrderItem(movie.value.id, price)]);
      var oid := nextOrderId;
      AddOrderKeepsValid(orders, payments, oid, order);
      orders := orders[oid := order];
      nextOrderId := nextOrderId + 1;
      r := Ok((oid, order));
    }

    /** `create_checkout_session`: the caller's unpaid order goes to the provider at its total. */
    function Pay(users: map<UserId, AccountRecords.User>, token: Jwt.Jwt, orderId: int): (r: Result<CheckoutSession, HttpError>)
      reads this
      ensures AuthGate.CurrentUser(users, token).Err? ==> r == Err(AuthGate.CurrentUser(users, token).error)
      ensures AuthGate.CurrentUser(users, token).Ok? ==>
        var uid := AuthGate.CurrentUser(users, token).value.id;
        && (orderId !in orders || orders[orderId].userId != uid ==> r == Err(OrderNotFound))
        && (orderId in orders && orders[orderId].userId == uid && orders[orderId].status == Paid ==> r == Err(OrderAlreadyPaid))
      ensures r.Ok? <==>
        && AuthGate.CurrentUser(users, token).Ok?
        && orderId in orders
        && orders[orderId].userId == AuthGate.CurrentUser(users, token).value.id
        && orders[orderId].status != Paid
      ensures r.Ok? ==> r.value == CheckoutSession(orders[orderId].totalCents, orderId as nat)
    {
      match AuthGate.CurrentUser(users, token)
      case Err(e) => Err(e)
      case Ok(p) =>
        if orderId !in orders || orders[orderId].userId != p.id then Err(OrderNotFound)
        else if orders[orderId].status == Paid then Err(OrderAlreadyPaid)
        else Ok(CheckoutSession(orders[orderId].totalCents, orderId as nat))
    }

    /** Whether an event completes a present order not yet PAID. */
    predicate Completes(event: WebhookEvent)
      reads this
    {
      && event.signatureValid
      && event.eventType == CompletedEvent
      && event.orderId.Some?
      && event.orderId.value in orders
      && orders[event.orderId.value].status != Paid
    }

    /** `stripe_webhook`: a completed session marks its order PAID and records the payment, once. */
    method HandleWebhook(event: WebhookEvent) returns (r: Result<string, HttpError>)
      requires Valid()
      modifies this`orders, this`payments
      ensures Valid()
      ensures !event.signatureValid ==> r == Err(SignatureRejected) && unchanged(this)
      ensures event.signatureValid ==> r == Ok("success")
      ensures !old(Completes(event)) ==> unchanged(this)
      ensures old(Completes(event)) ==>
        var oid := event.orderId.value;
        var o := old(orders)[oid];
        && orders == old(orders)[oid := o.(status := Paid)]
        && payments == old(payments) + [Payment(o.userId, oid, o.totalCents, event.sessionId)]
    {
      if !event.signatureValid {
        return Err(SignatureRejected);
      }
      if Completes(event) {
        var oid := event.orderId.value;
        var o := orders[oid];
        CompleteKeepsValid(orders, payments, nextOrderId, oid, event.sessionId);
        orders := orders[oid := o.(status := Paid)];
        payments := payments + [Payment(o.userId, oid, o.totalCents, event.sessionId)];
      }
      r := Ok("success");
    }

    /** `GET /me/library/`: the caller's owned movies. */
    function Library(users: map<UserId, AccountRecords.User>, token: Jwt.Jwt, c: CatalogStore, q: MovieRoutes.MovieQuery)
      : (r: Result<Paging.Page<Movie>, HttpError>)
      reads this, c, c.stars, c.directors
      ensures AuthGate.CurrentUser(users, token).Err? ==> r == Err(AuthGate.CurrentUser(users, token).error)
      ensures AuthGate.CurrentUser(users, token).Ok? ==>
        r == LibraryPage(c, OwnedMovieIds(orders, AuthGate.CurrentUser(users, token).value.id), q)
      ensures r.Ok? ==> forall m :: m in r.value.items ==>
        AlreadyOwned(orders, AuthGate.CurrentUser(users, token).value.id, m.id)
    {
      match AuthGate.CurrentUser(users, token)
      case Err(e) => Err(e)
      case Ok(p) => LibraryPage(c, OwnedMovieIds(orders, p.id), q)
    }
  }

  // ------------------------------------------------------------------
  // Scenarios
  // ------------------------------------------------------------------

  /** A checkout, its payment session and the provider's completion event make the movie owned. */
  method CheckoutPayComplete(b: OrderBook, users: map<UserId, AccountRecords.User>, token: Jwt.Jwt,
                             c: CatalogStore, movieId: int, sessionId: Option<string>)
    returns (order: Result<(OrderId, Order), HttpError>, session: Result<CheckoutSession, HttpError>)
    requires b.Valid()
    modifies b
    ensures b.Valid()
    ensures order.Ok? ==> session.Ok? && session.value.unitAmountCents == order.value.1.totalCents
    ensures order.Ok? ==>
      AuthGate.CurrentUser(users, token).Ok? && AlreadyOwned(b.orders, AuthGate.CurrentUser(users, token).value.id, movieId)
    ensures order.Ok? ==> b.Pay(users, token, order.value.0) == Err(OrderAlreadyPaid)
  {
    order := b.Checkout(users, token, c, movieId);
    if order.Err? {
      session := Err(order.error);
      return;
    }
    var oid := order.value.0;
    session := b.Pay(users, token, oid);
    var _ := b.HandleWebhook(WebhookEvent(true, CompletedEvent, Some(session.value.orderId), sessionId));
    assert b.orders[oid].items[0].movieId == movieId;
  }

  /** Delivering the same completion event twice records a single payment. */
  method WebhookRedelivered(b: OrderBook, event: WebhookEvent) returns (first: Result<string, HttpError>, second: Result<string, HttpError>)
    requires b.Valid()
    modifies b
    ensures b.Valid()
    ensures |b.payments| <= |old(b.payments)| + 1
    ensures first == second
  {
    first := b.HandleWebhook(event);
    second := b.HandleWebhook(event);
  }

  /**
   * Two checkouts of the same movie before either is paid, both completed:
   * the caller then holds two PAID orders for it, and the ownership check as
   * written fails with 500 where one order gives 400.
   */
  method DoublePurchase(b: OrderBook, users: map<UserId, AccountRecords.User>, token: Jwt.Jwt,
                        c: CatalogStore, movieId: int)
    requires b.Valid()
    requires AuthGate.CurrentUser(users, token).Ok?
    requires c.GetMovie(movieId).Ok?
    requires !AlreadyOwned(b.orders, AuthGate.CurrentUser(users, token).value.id, movieId)
    modifies b
    ensures b.Valid()
    ensures OwnedCheckAsWritten(b.orders, AuthGate.CurrentUser(users, token).value.id, movieId) == Some(MultipleRows)
    ensures OwnedCheck(b.orders, AuthGate.CurrentUser(users, token).value.id, movieId) == Some(HaveMovie)
  {
    var uid := AuthGate.CurrentUser(users, token).value.id;
    ghost var before := b.orders;
    var first := b.Checkout(users, token, c, movieId);
    var o1 := first.value.0;
    PendingOrderOwnsNothing(before, o1, first.value.1, uid, movieId);
    var second := b.Checkout(users, token, c, movieId);
    var o2 := second.value.0;
    var _ := b.HandleWebhook(WebhookEvent(true, CompletedEvent, Some(o1), None));
    var _ := b.HandleWebhook(WebhookEvent(true, CompletedEvent, Some(o2), None));
    TwoPaidOrders(b.orders, uid, movieId, o1, o2);
  }

  /** Two PAID orders of the same movie: 500 as written, 400 as intended. */
  lemma TwoPaidOrdersCounterexample()
    ensures var orders := map[1 := Order(7, Paid, 500, [OrderItem(3, 500)]), 2 := Order(7, Paid, 500, [OrderItem(3, 500)])];
      && OwnedCheckAsWritten(orders, 7, 3) == Some(MultipleRows)
      && OwnedCheck(orders, 7, 3) == Some(HaveMovie)
  {
    var orders := map[1 := Order(7, Paid, 500, [OrderItem(3, 500)]), 2 := Order(7, Paid, 500, [OrderItem(3, 500)])];
    TwoPaidOrders(orders, 7, 3, 1, 2);
  }

  /** Two distinct PAID orders of a user holding a movie make the check as written fail. */
  lemma TwoPaidOrders(orders: map<OrderId, Order>, userId: UserId, movieId: int, o1: OrderId, o2: OrderId)
    requires o1 != o2 && o1 in orders && o2 in orders
    requires orders[o1].userId == userId && orders[o1].status == Paid && |orders[o1].items| > 0 && orders[o1].items[0].movieId == movieId
    requires orders[o2].userId == userId && orders[o2].status == Paid && |orders[o2].items| > 0 && orders[o2].items[0].movieId == movieId
    ensures OwnedCheckAsWritten(orders, userId, movieId) == Some(MultipleRows)
    ensures OwnedCheck(orders, userId, movieId) == Some(HaveMovie)
  {
    var paid := PaidOrdersWith(orders, userId, movieId);
    assert o1 in paid && o2 in paid;
    assert paid == {o1, o2} + (paid - {o1, o2});
  }

  /** A new order that is not PAID changes no user's ownership. */
  lemma PendingOrderOwnsNothing(orders: map<OrderId, Order>, oid: OrderId, o: Order, userId: UserId, movieId: int)
    requires oid !in orders && o.status != Paid
    ensures AlreadyOwned(orders[oid := o], userId, movieId) == AlreadyOwned(orders, userId, movieId)
  {
    var after := orders[oid := o];
    if AlreadyOwned(after, userId, movieId) {
      var x :| x in after && after[x].userId == userId && after[x].status == Paid
        && exists i :: 0 <= i < |after[x].items| && after[x].items[i].movieId == movieId;
      assert x in orders && after[x] == orders[x];
    }
    if AlreadyOwned(orders, userId, movieId) {
      var x :| x in orders && orders[x].userId == userId && orders[x].status == Paid
        && exists i :: 0 <= i < |orders[x].items| && orders[x].items[i].movieId == movieId;
      assert x in after && after[x] == orders[x];
    }
  }

  // ------------------------------------------------------------------
  // The order book's invariant, on values
  // ------------------------------------------------------------------

  /** Some payment records the order. */
  predicate HasPayment(payments: seq<Payment>, oid: OrderId)
  {
    exists i :: 0 <= i < |payments| && payments[i].orderId == oid
  }

  /**
   * Orders hold one item priced at the order's total; each payment is the
   * only one of its order, which is PAID, and carries its user and total;
   * and every PAID order has its payment.
   */
  ghost predicate BookValid(orders: map<OrderId, Order>, payments: seq<Payment>, nextOrderId: nat)
  {
    && (forall oid :: oid in orders ==>
          oid < nextOrderId && |orders[oid].items| == 1 && orders[oid].items[0].priceAtOrder == orders[oid].totalCents)
    && (forall i :: 0 <= i < |payments| ==>
          && payments[i].orderId in orders
          && orders[payments[i].orderId].status == Paid
          && payments[i].userId == orders[payments[i].orderId].userId
          && payments[i].amountCents == orders[payments[i].orderId].totalCents)
    && (forall i, j :: 0 <= i < j < |payments| ==> payments[i].orderId != payments[j].orderId)
    && (forall oid :: oid in orders && orders[oid].status == Paid ==> HasPayment(payments, oid))
  }

  /** Checkout: a PENDING single-item order under the next id. */
  lemma AddOrderKeepsValid(orders: map<OrderId, Order>, payments: seq<Payment>, oid: OrderId, o: Order)
    requires BookValid(orders, payments, oid)
    requires o.status == Pending && |o.items| == 1 && o.items[0].priceAtOrder == o.totalCents
    ensures oid !in orders
    ensures BookValid(orders[oid := o], payments, oid + 1)
  {
  }

  /** The webhook: an unpaid order becomes PAID and gets its one payment. */
  lemma CompleteKeepsValid(orders: map<OrderId, Order>, payments: seq<Payment>, next: nat, oid: OrderId, sessionId: Option<string>)
    requires BookValid(orders, payments, next) && oid in orders && orders[oid].status != Paid
    ensures BookValid(orders[oid := orders[oid].(status := Paid)],
                      payments + [Payment(orders[oid].userId, oid, orders[oid].totalCents, sessionId)], next)
  {
    var o := orders[oid];
    var after := orders[oid := o.(status := Paid)];
    var ps := payments + [Payment(o.userId, oid, o.totalCents, sessionId)];
    assert !HasPayment(payments, oid);
    assert forall i :: 0 <= i < |payments| ==> ps[i] == payments[i] && payments[i].orderId != oid;
    assert ps[|payments|].orderId == oid;
    forall o2 | o2 in after && after[o2].status == Paid
      ensures HasPayment(ps, o2)
    {
      if o2 != oid {
        var i :| 0 <= i < |payments| && payments[i].orderId == o2;
        assert ps[i].orderId == o2;
      }
    }
  }
}
