/** The business sequences of the user handler (modules/user/handler.go):
    buying seats of a movie and cancelling a ticket. HTTP binding, tokens and
    JSON responses are replaced by parameters and a Response value. */
module UserHandler {
  import opened Common
  import opened Entities
  import MovieRepo
  import opened TicketRepo
  import opened UserRepo
  import opened UserUseCase

  // ---------------------------------------------------------------------
  // Seat flag updates. Both sequences run the same nested loop: for every
  // seat `s1` of a request (a copy taken when its turn starts) and every
  // seat `s2` of the movie's map, if the two structs are equal (row, number
  // AND flag), set the flag of both to a given value.
  // ---------------------------------------------------------------------

  /** The flag of map seat `s` once the first `k` request seats have been
      compared with it: it takes `flag` as soon as some request seat at its
      position carries its original flag, and otherwise keeps it. */
  ghost function FlagAfter(s: Seat, request: seq<Seat>, k: nat, flag: bool): bool
    requires k <= |request|
  {
    if exists j :: 0 <= j < k && SeatKey(request[j]) == SeatKey(s) && request[j].booked == s.booked
    then flag else s.booked
  }

  /** The flag of request seat `i`: it takes `flag` when some map seat at its
      position holds, at its turn, the same flag as the request seat. */
  ghost function RequestFlag(layout: seq<Seat>, request: seq<Seat>, i: nat, flag: bool): bool
    requires i < |request|
  {
    if exists j :: 0 <= j < |layout| && SeatKey(request[i]) == SeatKey(layout[j])
                                     && request[i].booked == FlagAfter(layout[j], request, i, flag)
    then flag else request[i].booked
  }

  /** The movie's seat map after the loop; seats never move. */
  ghost function MarkedLayout(layout: seq<Seat>, request: seq<Seat>, flag: bool): (r: seq<Seat>)
    ensures |r| == |layout|
    ensures forall i :: 0 <= i < |r| ==> SeatKey(r[i]) == SeatKey(layout[i])
  {
    seq(|layout|, i requires 0 <= i < |layout| =>
      layout[i].(booked := FlagAfter(layout[i], request, |request|, flag)))
  }

  /** A seat equal to some request seat ends up with `flag`; a seat that
      changed has `flag` and a request seat at its position. */
  lemma MarkedLayoutFlags(layout: seq<Seat>, request: seq<Seat>, flag: bool)
    ensures var r := MarkedLayout(layout, request, flag);
      && (forall i, j :: 0 <= i < |r| && 0 <= j < |request| && request[j] == layout[i] ==> r[i].booked == flag)
      && (forall i :: 0 <= i < |r| && r[i] != layout[i] ==>
            r[i].booked == flag && exists j :: 0 <= j < |request| && SeatKey(request[j]) == SeatKey(layout[i]))
  {
  }

  /** The request seats after the loop: positions unchanged, each flag as
      RequestFlag says. */
  ghost function MarkedRequest(layout: seq<Seat>, request: seq<Seat>, flag: bool): (r: seq<Seat>)
    ensures |r| == |request|
    ensures forall i :: 0 <= i < |r| ==> SeatKey(r[i]) == SeatKey(request[i])
  {
    seq(|request|, i requires 0 <= i < |request| =>
      request[i].(booked := RequestFlag(layout, request, i, flag)))
  }

  /** Comparing one more request seat updates a map seat's flag exactly when
      the two are equal structs at that moment. */
  lemma FlagAfterStep(s: Seat, request: seq<Seat>, k: nat, flag: bool)
    requires k < |request|
    ensures FlagAfter(s, request, k + 1, flag) ==
      if request[k] == s.(booked := FlagAfter(s, request, k, flag)) then flag else FlagAfter(s, request, k, flag)
  {
    if exists j :: 0 <= j < k && SeatKey(request[j]) == SeatKey(s) && request[j].booked == s.booked {
      var j :| 0 <= j < k && SeatKey(request[j]) == SeatKey(s) && request[j].booked == s.booked;
      assert 0 <= j < k + 1;
    }
  }

  /** One pass of the inner loop of handler.go: every seat of the map equal
      to `s1` (row, number and flag) gets `flag`; `hit` tells whether there
      was one, in which case the request seat gets `flag` too. */
  method MarkEqual(s1: Seat, layout: array<Seat>, flag: bool) returns (hit: bool)
    modifies layout
    ensures forall i :: 0 <= i < layout.Length ==>
      layout[i] == if old(layout[i]) == s1 then s1.(booked := flag) else old(layout[i])
    ensures hit <==> exists i :: 0 <= i < layout.Length && old(layout[i]) == s1
  {
    hit := false;
    var i2 := 0;
    while i2 < layout.Length
      invariant 0 <= i2 <= layout.Length
      invariant forall i :: 0 <= i < i2 ==>
        layout[i] == if old(layout[i]) == s1 then s1.(booked := flag) else old(layout[i])
      invariant forall i :: i2 <= i < layout.Length ==> layout[i] == old(layout[i])
      invariant hit <==> exists i :: 0 <= i < i2 && old(layout[i]) == s1
    {
      var s2 := layout[i2];
      if s1 == s2 {
        hit := true;
        layout[i2] := layout[i2].(booked := flag);
      }
      i2 := i2 + 1;
    }
  }

  /** The nested loop of handler.go that books (flag true) or frees (flag
      false) seats: it updates the shared seat map in place and returns the
      updated copy of the request. */
  method MarkMatching(request: seq<Seat>, layout: array<Seat>, flag: bool) returns (marked: seq<Seat>)
    modifies layout
    ensures layout[..] == MarkedLayout(old(layout[..]), request, flag)
    ensures marked == MarkedRequest(old(layout[..]), request, flag)
  {
    ghost var start := layout[..];
    marked := request;
    var i1 := 0;
    while i1 < |marked|
      invariant 0 <= i1 <= |request| == |marked|
      invariant forall i :: 0 <= i < layout.Length ==>
        layout[i] == start[i].(booked := FlagAfter(start[i], request, i1, flag))
      invariant forall i :: 0 <= i < i1 ==> marked[i] == request[i].(booked := RequestFlag(start, request, i, flag))
      invariant forall i :: i1 <= i < |request| ==> marked[i] == request[i]
    {
      var s1 := marked[i1];
      ghost var before := layout[..];
      var hit := MarkEqual(s1, layout, flag);
      forall i | 0 <= i < layout.Length
        ensures layout[i] == start[i].(booked := FlagAfter(start[i], request, i1 + 1, flag))
      {
        FlagAfterStep(start[i], request, i1, flag);
      }
      forall j | 0 <= j < |start| && SeatKey(request[i1]) == SeatKey(start[j])
                               && request[i1].booked == FlagAfter(start[j], request, i1, flag)
        ensures before[j] == s1
      {
      }
      if hit {
        ghost var j :| 0 <= j < layout.Length && before[j] == s1;
        assert SeatKey(request[i1]) == SeatKey(start[j]);
      }
      if hit {
        marked := marked[i1 := marked[i1].(booked := flag)];
      }
      i1 := i1 + 1;
    }
  }

  /** Booking a batch of free seats and then freeing the booked copies that
      the purchase records restores the seat map exactly, when no two seats
      of the map share a position (as for the generated 8-by-8 map). */
  lemma {:induction false} BookThenFreeRestores(layout: seq<Seat>, request: seq<Seat>)
    requires DistinctKeys(layout)
    requires forall j :: 0 <= j < |request| ==> !request[j].booked
    ensures MarkedLayout(MarkedLayout(layout, request, true), MarkedRequest(layout, request, true), false) == layout
  {
    var booked := MarkedLayout(layout, request, true);
    var held := MarkedRequest(layout, request, true);
    var freed := MarkedLayout(booked, held, false);
    forall i | 0 <= i < |layout| ensures freed[i] == layout[i] {
      var s := layout[i];
      var first := FirstIndex(request, SeatKey, SeatKey(s));
      if !s.booked && first.Some? {
        var j0 := first.value;
        assert FlagAfter(s, request, j0, true) == false;
        assert RequestFlag(layout, request, j0, true);
        assert booked[i] == s.(booked := true);
        assert SeatKey(held[j0]) == SeatKey(booked[i]) && held[j0].booked == booked[i].booked;
      } else if s.booked {
        assert booked[i] == s;
        forall j | 0 <= j < |held| && SeatKey(held[j]) == SeatKey(s) ensures !held[j].booked {
          forall i' | 0 <= i' < |layout| && SeatKey(request[j]) == SeatKey(layout[i'])
            ensures FlagAfter(layout[i'], request, j, true)
          {
            assert i' == i;
          }
        }
      } else {
        assert booked[i] == s;
      }
    }
  }


  // ---------------------------------------------------------------------
  // The purchase and cancellation sequences, first as values: what each
  // answers and what the user store, the ticket store and the movie's seat
  // map hold afterwards.
  // ---------------------------------------------------------------------

  /** What the handler answers; the comment gives the response message. */
  datatype Response =
    | Created(ticket: Ticket)         // TICKET_CREATED
    | Done                            // SUCCESS (cancellation)
    | Unauthorized(cause: Error)      // UNAUTHORIZED: the caller's user is not stored
    | Missing(cause: Error)           // NOT_FOUND: unknown movie or ticket
    | AgeRestriction                  // AGE_RESTRICTION
    | FailedBooked(cause: Error)      // FAILED_BOOKED
    | NotEnoughBalance(cause: Error)  // NOT_ENOUGH_BALANCE
    | FailedCreateTicket(cause: Error) // FAILED_CREATE_TICKET

  /** A response together with the user store, the ticket store and the seat
      map of the movie concerned, as they are after a request. */
  datatype Outcome = Outcome(response: Response, users: seq<User>, tickets: seq<Ticket>, layout: seq<Seat>)

  /** Booking the selected seats and storing the ticket, once the cost has
      been withdrawn: `users1` already holds the debited user at position
      `k`. A clashing ticket ID keeps the debit and the bookings. */
  ghost function Settlement(users1: seq<User>, tickets0: seq<Ticket>, k: nat, movie: Movie, layout0: seq<Seat>,
                            selected: seq<Seat>, cost: int, ticketId: string): Outcome
    requires k < |users1|
  {
    var payer := users1[k];
    var ticket := Ticket(ticketId, payer.id, movie.id, MarkedRequest(layout0, selected, true), cost);
    var layout1 := MarkedLayout(layout0, selected, true);
    if FirstIndex(tickets0, TicketId, ticketId).Some? then
      Outcome(FailedCreateTicket(DuplicateTicket), users1, OverwriteAll(tickets0, ticket), layout1)
    else
      Outcome(Created(ticket), users1[k := payer.(tickets := payer.tickets + [ticket])], tickets0 + [ticket], layout1)
  }

  /** A purchase by the user at position `k` of the store for `movie`, whose
      seat map is `layout0`: age gate, availability of the batch, cost =
      price times seat count in Go's 64-bit `int` (so a product past the
      `int` range wraps), balance check, withdrawal, then Settlement. */
  ghost function Purchase(users0: seq<User>, tickets0: seq<Ticket>, k: nat, movie: Movie, layout0: seq<Seat>,
                          request: seq<Seat>, ticketId: string): Outcome
    requires k < |users0|
  {
    var user := users0[k];
    if NotPermitted(movie, user) then Outcome(AgeRestriction, users0, tickets0, layout0)
    else
      var avail := Availability(layout0, request);
      if avail.Failure? then Outcome(FailedBooked(avail.error), users0, tickets0, layout0)
      else
        Payment(users0, tickets0, k, movie, layout0, avail.value, Wrap64(movie.ticketPrice * |avail.value|), ticketId)
  }

  /** The part of a purchase after the batch is found available: balance
      check, withdrawal of `cost` (refused when negative), then Settlement. */
  ghost function Payment(users0: seq<User>, tickets0: seq<Ticket>, k: nat, movie: Movie, layout0: seq<Seat>,
                         selected: seq<Seat>, cost: int, ticketId: string): Outcome
    requires k < |users0|
  {
    var user := users0[k];
    if CheckBalance(user, cost).Some? then Outcome(NotEnoughBalance(BalanceInsufficient), users0, tickets0, layout0)
    else if cost < 0 then Outcome(NotEnoughBalance(NegativeValue), users0, tickets0, layout0)
    else Settlement(users0[k := user.(balance := user.balance - cost)], tickets0, k, movie, layout0, selected, cost, ticketId)
  }

  /** A cancellation by the user at position `k` of the stored `ticket`,
      whose movie has seat map `layout0`: the ticket's seats are freed, the
      user's first copy of the ticket and the stored ticket are removed. */
  ghost function Cancellation(users0: seq<User>, tickets0: seq<Ticket>, k: nat, ticket: Ticket, layout0: seq<Seat>): Outcome
    requires k < |users0|
  {
    var user := users0[k];
    Outcome(Done, users0[k := user.(tickets := RemoveFirst(user.tickets, ticket.id))],
            RemoveFirst(tickets0, ticket.id), MarkedLayout(layout0, ticket.seats, false))
  }

  /** The checks come in the handler's order, and a purchase refused by any
      of them changes neither store nor the seat map. */
  lemma PurchaseRefusals(users0: seq<User>, tickets0: seq<Ticket>, k: nat, movie: Movie, layout0: seq<Seat>,
                         request: seq<Seat>, ticketId: string)
    requires k < |users0|
    ensures var o := Purchase(users0, tickets0, k, movie, layout0, request, ticketId);
      var user, avail := users0[k], Availability(layout0, request);
      && (NotPermitted(movie, user) ==> o.response == AgeRestriction)
      && (!NotPermitted(movie, user) && avail.Failure? ==> o.response == FailedBooked(avail.error))
      && (!NotPermitted(movie, user) && avail.Success? && user.balance < Wrap64(movie.ticketPrice * |request|) ==>
            o.response == NotEnoughBalance(BalanceInsufficient))
      && (!NotPermitted(movie, user) && avail.Success? && Wrap64(movie.ticketPrice * |request|) < 0 <= user.balance ==>
            o.response == NotEnoughBalance(NegativeValue))
      && (!NotPermitted(movie, user) && avail.Success? && movie.ticketPrice < 0 <= user.balance
          && InInt64(movie.ticketPrice * |request|) ==>
            o.response == NotEnoughBalance(NegativeValue))
      && (!o.response.Created? && !o.response.FailedCreateTicket? ==>
            o.users == users0 && o.tickets == tickets0 && o.layout == layout0)
  {
    var avail := Availability(layout0, request);
    if avail.Success? && movie.ticketPrice < 0 {
      assert movie.ticketPrice * |request| < 0 by {
        assert |request| > 0;
      }
    }
  }

  /** A purchase that passes every check withdraws the 64-bit product of
      price and seat count (the exact product while it fits in an `int`)
      from the caller and from no one else. The ticket records the caller,
      the movie, the requested positions and the cost; it is stored and
      attached to the caller unless its ID clashes, in which case the debit
      stays and the caller holds no new ticket. */
  lemma PurchaseCharges(users0: seq<User>, tickets0: seq<Ticket>, k: nat, movie: Movie, layout0: seq<Seat>,
                        request: seq<Seat>, ticketId: string)
    requires k < |users0|
    ensures var o := Purchase(users0, tickets0, k, movie, layout0, request, ticketId);
      var user, cost := users0[k], Wrap64(movie.ticketPrice * |request|);
      && (InInt64(movie.ticketPrice * |request|) ==> cost == movie.ticketPrice * |request|)
      && (user.balance >= 0 ==> o.users[k].balance >= 0)
      && (o.response.Created? || o.response.FailedCreateTicket? ==>
            && !NotPermitted(movie, user)
            && Availability(layout0, request).Success?
            && 0 <= cost <= user.balance
            && |o.users| == |users0|
            && o.users[k] == user.(balance := user.balance - cost, tickets := o.users[k].tickets)
            && (forall i :: 0 <= i < |users0| && i != k ==> o.users[i] == users0[i]))
      && (o.response.FailedCreateTicket? ==>
            && o.response.cause == DuplicateTicket
            && FirstIndex(tickets0, TicketId, ticketId).Some?
            && o.users[k].tickets == user.tickets)
      && (o.response.Created? ==>
            var t := o.response.ticket;
            && FirstIndex(tickets0, TicketId, ticketId).None?
            && t.id == ticketId && t.userId == user.id && t.movieId == movie.id
            && |t.seats| == |request| && t.cost == cost == Wrap64(movie.ticketPrice * |t.seats|)
            && (forall j :: 0 <= j < |request| ==> SeatKey(t.seats[j]) == SeatKey(request[j]))
            && o.users[k].tickets == user.tickets + [t]
            && o.tickets == tickets0 + [t])
  {
    var avail := Availability(layout0, request);
    if !NotPermitted(movie, users0[k]) && avail.Success? {
      assert |avail.value| == |request|;
    }
  }

  /** A purchase that passes every check books, for each requested seat, the
      first seat of the map at its position, and changes no seat that was
      not requested; it never moves a seat. */
  lemma PurchaseBooks(users0: seq<User>, tickets0: seq<Ticket>, k: nat, movie: Movie, layout0: seq<Seat>,
                      request: seq<Seat>, ticketId: string)
    requires k < |users0|
    ensures var o := Purchase(users0, tickets0, k, movie, layout0, request, ticketId);
      && |o.layout| == |layout0|
      && (forall i :: 0 <= i < |layout0| ==> SeatKey(o.layout[i]) == SeatKey(layout0[i]))
      && (o.response.Created? || o.response.FailedCreateTicket? ==>
            && (forall i, j ::
                  (0 <= i < |layout0| && 0 <= j < |request| && layout0[i] == Availability(layout0, request).value[j])
                  ==> o.layout[i].booked)
            && (forall j :: 0 <= j < |request| ==>
                  var f := FirstIndex(layout0, SeatKey, SeatKey(request[j]));
                  f.Some? && o.layout[f.value].booked)
            && (forall i :: 0 <= i < |layout0| && o.layout[i] != layout0[i] ==>
                  o.layout[i].booked && exists j :: 0 <= j < |request| && SeatKey(request[j]) == SeatKey(layout0[i])))
  {
    var o := Purchase(users0, tickets0, k, movie, layout0, request, ticketId);
    if o.response.Created? || o.response.FailedCreateTicket? {
      var selected := Availability(layout0, request).value;
      PurchaseSettles(users0, tickets0, k, movie, layout0, request, ticketId);
      assert o.layout == MarkedLayout(layout0, selected, true);
      MarkedLayoutFlags(layout0, selected, true);
      forall j | 0 <= j < |request|
        ensures var f := FirstIndex(layout0, SeatKey, SeatKey(request[j])); f.Some? && o.layout[f.value].booked
      {
        assert selected[j] == layout0[FirstIndex(layout0, SeatKey, SeatKey(request[j])).value];
      }
      forall i | 0 <= i < |layout0| && o.layout[i] != layout0[i]
        ensures exists j :: 0 <= j < |request| && SeatKey(request[j]) == SeatKey(layout0[i])
      {
        var j :| 0 <= j < |selected| && SeatKey(selected[j]) == SeatKey(layout0[i]);
        assert SeatKey(request[j]) == SeatKey(layout0[i]);
      }
    }
  }

  /** Cancelling frees every seat of the map equal to one of the ticket's
      seats, and changes only seats at a position the ticket holds. */
  lemma CancellationFrees(users0: seq<User>, tickets0: seq<Ticket>, k: nat, ticket: Ticket, layout0: seq<Seat>)
    requires k < |users0|
    ensures var c := Cancellation(users0, tickets0, k, ticket, layout0);
      && |c.layout| == |layout0|
      && (forall i, j :: 0 <= i < |layout0| && 0 <= j < |ticket.seats| && ticket.seats[j] == layout0[i] ==>
            !c.layout[i].booked)
      && (forall i :: 0 <= i < |layout0| && c.layout[i] != layout0[i] ==>
            !c.layout[i].booked && exists j :: 0 <= j < |ticket.seats| && SeatKey(ticket.seats[j]) == SeatKey(layout0[i]))
  {
    MarkedLayoutFlags(layout0, ticket.seats, false);
  }

  /** Cancelling keeps the caller's balance and every other user, and in a
      store with unique IDs the cancelled ID is gone afterwards. */
  lemma CancellationKeepsBalance(users0: seq<User>, tickets0: seq<Ticket>, k: nat, ticket: Ticket, layout0: seq<Seat>)
    requires k < |users0|
    ensures var c := Cancellation(users0, tickets0, k, ticket, layout0);
      && c.response == Done
      && |c.users| == |users0|
      && c.users[k].balance == users0[k].balance
      && c.users[k].username == users0[k].username
      && (forall i :: 0 <= i < |users0| && i != k ==> c.users[i] == users0[i])
      && (UniqueIds(tickets0) ==> UniqueIds(c.tickets) && FirstIndex(c.tickets, TicketId, ticket.id).None?)
  {
    if UniqueIds(tickets0) {
      DeleteRemovesId(tickets0, ticket.id);
    }
  }

  /** Settling a batch of free seats under a fresh ticket ID and then
      cancelling that ticket restores the seat map, the ticket store and the
      user store as they were after the withdrawal. */
  lemma {:induction false} SettlementThenCancel(users1: seq<User>, tickets0: seq<Ticket>, k: nat, movie: Movie,
                                                layout0: seq<Seat>, selected: seq<Seat>, cost: int, ticketId: string)
    requires k < |users1|
    requires DistinctKeys(layout0) && forall j :: 0 <= j < |selected| ==> !selected[j].booked
    requires FirstIndex(users1[k].tickets, TicketId, ticketId).None?
    requires FirstIndex(tickets0, TicketId, ticketId).None?
    ensures var o := Settlement(users1, tickets0, k, movie, layout0, selected, cost, ticketId);
      var t := o.response.ticket;
      var c := Cancellation(o.users, o.tickets, k, t, o.layout);
      && o.response.Created?
      && (FirstIndex(users1, UserName, users1[k].username) == Some(k) ==>
            FirstIndex(o.users, UserName, users1[k].username) == Some(k))
      && FirstIndex(o.tickets, TicketId, ticketId) == Some(|tickets0|) && o.tickets[|tickets0|] == t
      && c.layout == layout0
      && c.tickets == tickets0
      && c.users == users1
  {
    var o := Settlement(users1, tickets0, k, movie, layout0, selected, cost, ticketId);
    var payer := users1[k];
    var t := o.response.ticket;
    var holder := payer.(tickets := payer.tickets + [t]);
    BookThenFreeRestores(layout0, selected);
    ReadAfterCreate(tickets0, t);
    DeleteAfterCreateRestores(tickets0, t);
    DeleteAfterCreateRestores(payer.tickets, t);
    ReadAfterUpdate(users1, holder);
    assert o.users == users1[k := holder];
    assert users1[k := holder][k := payer] == users1;
  }

  /** A successful purchase followed by the cancellation of its ticket by the
      same user restores the seat map and the ticket store, and the caller's
      ticket list when it held no ticket with that ID before; the caller is
      found at the same position and the ticket at the end of the store. The
      cost is not refunded. */
  lemma {:induction false} PurchaseThenCancel(users0: seq<User>, tickets0: seq<Ticket>, k: nat, movie: Movie,
                                              layout0: seq<Seat>, request: seq<Seat>, ticketId: string)
    requires k < |users0|
    requires DistinctKeys(layout0)
    requires FirstIndex(users0[k].tickets, TicketId, ticketId).None?
    requires Purchase(users0, tickets0, k, movie, layout0, request, ticketId).response.Created?
    ensures var o := Purchase(users0, tickets0, k, movie, layout0, request, ticketId);
      var t := o.response.ticket;
      var c := Cancellation(o.users, o.tickets, k, t, o.layout);
      && c.layout == layout0
      && c.tickets == tickets0
      && c.users == users0[k := users0[k].(balance := users0[k].balance - t.cost)]
  {
    var user := users0[k];
    PurchaseSettles(users0, tickets0, k, movie, layout0, request, ticketId);
    var selected := Availability(layout0, request).value;
    var cost := Wrap64(movie.ticketPrice * |selected|);
    var payer := user.(balance := user.balance - cost);
    SettlementThenCancel(users0[k := payer], tickets0, k, movie, layout0, selected, cost, ticketId);
  }

  /** A purchase changes no user but the caller, and the caller keeps its
      username, ID and age. */
  lemma PurchaseTouchesOnlyCaller(users0: seq<User>, tickets0: seq<Ticket>, k: nat, movie: Movie, layout0: seq<Seat>,
                                  request: seq<Seat>, ticketId: string)
    requires k < |users0|
    ensures var o := Purchase(users0, tickets0, k, movie, layout0, request, ticketId);
      && o.users == users0[k := o.users[k]]
      && o.users[k].username == users0[k].username
      && o.users[k].id == users0[k].id
      && o.users[k].age == users0[k].age
  {
  }

  /** After a purchase the caller is still found by username at the same
      position, and a created ticket is found by its ID at the end of the
      ticket store; so the same user can cancel it next. */
  lemma PurchaseLookups(users0: seq<User>, tickets0: seq<Ticket>, k: nat, movie: Movie, layout0: seq<Seat>,
                        request: seq<Seat>, ticketId: string)
    requires k < |users0| && FirstIndex(users0, UserName, users0[k].username) == Some(k)
    ensures var o := Purchase(users0, tickets0, k, movie, layout0, request, ticketId);
      && FirstIndex(o.users, UserName, users0[k].username) == Some(k)
      && (o.response.Created? ==>
            FirstIndex(o.tickets, TicketId, ticketId) == Some(|tickets0|) && o.tickets[|tickets0|] == o.response.ticket)
  {
    var o := Purchase(users0, tickets0, k, movie, layout0, request, ticketId);
    PurchaseTouchesOnlyCaller(users0, tickets0, k, movie, layout0, request, ticketId);
    FindAfterReplace(users0, k, o.users[k]);
    if o.response.Created? {
      PurchaseCharges(users0, tickets0, k, movie, layout0, request, ticketId);
      ReadAfterCreate(tickets0, o.response.ticket);
    }
  }

  /** A purchase that passes every check is the Settlement of a batch of
      free seats, with the 64-bit product of price and seat count withdrawn
      from the caller. */
  lemma PurchaseSettles(users0: seq<User>, tickets0: seq<Ticket>, k: nat, movie: Movie, layout0: seq<Seat>,
                        request: seq<Seat>, ticketId: string)
    requires k < |users0|
    requires var o := Purchase(users0, tickets0, k, movie, layout0, request, ticketId);
      o.response.Created? || o.response.FailedCreateTicket?
    ensures var avail, user := Availability(layout0, request), users0[k];
      && avail.Success?
      && (forall j :: 0 <= j < |avail.value| ==> !avail.value[j].booked)
      && var cost := Wrap64(movie.ticketPrice * |avail.value|);
      && 0 <= cost <= user.balance
      && Purchase(users0, tickets0, k, movie, layout0, request, ticketId)
         == Settlement(users0[k := user.(balance := user.balance - cost)], tickets0, k, movie, layout0,
                       avail.value, cost, ticketId)
  {
  }

  /** Six seats at a price of 3074457345618258603 cost 2^64 + 2, which Go's
      `int` wraps to 2: a caller with a balance of 2 passes the balance check
      and is charged 2. */
  lemma PurchaseCostWraps(users0: seq<User>, tickets0: seq<Ticket>, k: nat, movie: Movie, layout0: seq<Seat>,
                          request: seq<Seat>, ticketId: string)
    requires k < |users0| && users0[k].balance == 2
    requires movie.ticketPrice == 3074457345618258603 && |request| == 6
    requires !NotPermitted(movie, users0[k]) && Availability(layout0, request).Success?
    ensures var o := Purchase(users0, tickets0, k, movie, layout0, request, ticketId);
      && (o.response.Created? || o.response.FailedCreateTicket?)
      && o.users[k].balance == 0
  {
    var avail := Availability(layout0, request);
    assert |avail.value| == 6;
    assert Wrap64(movie.ticketPrice * 6) == 2;
  }

  class Handler {
    const userUseCase: UseCase

    constructor (userUseCase: UseCase)
      ensures this.userUseCase == userUseCase
    {
      this.userUseCase := userUseCase;
    }

    /** Neither store nor any seat map has changed. */
    twostate predicate Untouched()
      reads userUseCase.users, userUseCase.tickets, Layouts(userUseCase.movies)
    {
      && userUseCase.users.data == old(userUseCase.users.data)
      && userUseCase.tickets.data == old(userUseCase.tickets.data)
      && forall a :: a in Layouts(userUseCase.movies) ==> a[..] == old(a[..])
    }

    /** Buys the requested seats of movie `movieId` for the user `username`
        under the fresh ticket ID `ticketId`, as Purchase describes; an
        unknown user or movie is reported before anything changes, and no
        other movie's seat map changes. */
    method BuyTicket(username: string, movieId: int, request: seq<Seat>, ticketId: string) returns (r: Response)
      modifies userUseCase.users, userUseCase.tickets, Layouts(userUseCase.movies)
      ensures
        var ui := FirstIndex(old(userUseCase.users.data), UserName, username);
        var mr := MovieRepo.Read(userUseCase.movies, movieId);
        && (ui.None? ==> r == Unauthorized(EmptyData) && Untouched())
        && (ui.Some? && mr.Failure? ==> r == Missing(EmptyData) && Untouched())
        && (ui.Some? && mr.Success? ==>
              && Outcome(r, userUseCase.users.data, userUseCase.tickets.data, mr.value.seats[..])
                 == Purchase(old(userUseCase.users.data), old(userUseCase.tickets.data), ui.value,
                             mr.value, old(mr.value.seats[..]), request, ticketId)
              && unchanged(Layouts(userUseCase.movies) - {mr.value.seats}))
    {
      var uc := userUseCase;
      var ur := uc.users.GetByUsername(username);
      if ur.Failure? {
        return Unauthorized(ur.error);
      }
      var user := ur.value;
      var mr := MovieRepo.Read(uc.movies, movieId);
      if mr.Failure? {
        return Missing(mr.error);
      }
      ghost var k := FirstIndex(uc.users.data, UserName, username).value;
      r := Checkout(k, user, mr.value, request, ticketId);
    }

    /** The steps of BuyTicket once the caller (at position `k` of the user
        store) and the movie are known: age gate, availability, balance
        check, withdrawal, then Settle. Only the stores and this movie's seat
        map may change. */
    method Checkout(ghost k: nat, user: User, movie: Movie, request: seq<Seat>, ticketId: string) returns (r: Response)
      requires FirstIndex(userUseCase.users.data, UserName, user.username) == Some(k)
      requires userUseCase.users.data[k] == user
      modifies userUseCase.users, userUseCase.tickets, movie.seats
      ensures Outcome(r, userUseCase.users.data, userUseCase.tickets.data, movie.seats[..])
           == Purchase(old(userUseCase.users.data), old(userUseCase.tickets.data), k, movie,
                       old(movie.seats[..]), request, ticketId)
    {
      var uc := userUseCase;
      if NotPermitted(movie, user) {
        return AgeRestriction;
      }
      ghost var users0 := uc.users.data;
      var avail := uc.CheckAvailability(request, movie.seats);
      if avail.Failure? {
        return FailedBooked(avail.error);
      }
      var seats := avail.value;
      var cost := Wrap64(movie.ticketPrice * |seats|);
      r := Pay(k, user, movie, seats, cost, ticketId);
    }

    /** The steps of BuyTicket after the availability check: balance check,
        withdrawal, then Settle. */
    method Pay(ghost k: nat, user: User, movie: Movie, seats: seq<Seat>, cost: int, ticketId: string)
      returns (r: Response)
      requires FirstIndex(userUseCase.users.data, UserName, user.username) == Some(k)
      requires userUseCase.users.data[k] == user
      modifies userUseCase.users, userUseCase.tickets, movie.seats
      ensures Outcome(r, userUseCase.users.data, userUseCase.tickets.data, movie.seats[..])
           == Payment(old(userUseCase.users.data), old(userUseCase.tickets.data), k, movie,
                      old(movie.seats[..]), seats, cost, ticketId)
    {
      var balanceErr := CheckBalance(user, cost);
      if balanceErr.Some? {
        return NotEnoughBalance(balanceErr.value);
      }
      r := Debit(k, user, movie, seats, cost, ticketId);
    }

    /** The steps of BuyTicket after a passed balance check: withdrawal, then
        Settle. */
    method Debit(ghost k: nat, user: User, movie: Movie, seats: seq<Seat>, cost: int, ticketId: string)
      returns (r: Response)
      requires FirstIndex(userUseCase.users.data, UserName, user.username) == Some(k)
      requires userUseCase.users.data[k] == user
      requires CheckBalance(user, cost).None?
      modifies userUseCase.users, userUseCase.tickets, movie.seats
      ensures Outcome(r, userUseCase.users.data, userUseCase.tickets.data, movie.seats[..])
           == Payment(old(userUseCase.users.data), old(userUseCase.tickets.data), k, movie,
                      old(movie.seats[..]), seats, cost, ticketId)
    {
      var uc := userUseCase;
      ghost var users0, tickets0, layout0 := uc.users.data, uc.tickets.data, movie.seats[..];
      var payer, withdrawErr := uc.Withdraw(user, cost);
      if withdrawErr.Some? {
        assert cost < 0 && withdrawErr.value == NegativeValue;
        return NotEnoughBalance(withdrawErr.value);
      }
      assert payer == user.(balance := user.balance - cost);
      assert Payment(users0, tickets0, k, movie, layout0, seats, cost, ticketId)
          == Settlement(users0[k := payer], tickets0, k, movie, layout0, seats, cost, ticketId);
      ReadAfterUpdate(users0, payer);
      assert uc.users.data == users0[k := payer];
      r := Settle(k, payer, movie, seats, cost, ticketId);
    }

    /** The steps of BuyTicket after the withdrawal: book the movie's seats
        equal to the selected ones, then store the ticket through the use
        case. The store already holds the debited user at position `k`. */
    method Settle(ghost k: nat, payer: User, movie: Movie, selected: seq<Seat>, cost: int, ticketId: string)
      returns (r: Response)
      requires FirstIndex(userUseCase.users.data, UserName, payer.username) == Some(k)
      requires userUseCase.users.data[k] == payer
      modifies userUseCase.users, userUseCase.tickets, movie.seats
      ensures Outcome(r, userUseCase.users.data, userUseCase.tickets.data, movie.seats[..])
           == Settlement(old(userUseCase.users.data), old(userUseCase.tickets.data), k, movie,
                         old(movie.seats[..]), selected, cost, ticketId)
    {
      var uc := userUseCase;
      var seats := MarkMatching(selected, movie.seats, true);
      var ticket := Ticket(ticketId, payer.id, movie.id, seats, cost);
      ghost var users1 := uc.users.data;
      var buyErr := uc.BuyTicket(payer, ticket);
      if buyErr.Some? {
        return FailedCreateTicket(buyErr.value);
      }
      ReadAfterUpdate(users1, payer.(tickets := payer.tickets + [ticket]));
      return Created(ticket);
    }

    /** The seat loop of CancelTicket: frees the seats of the ticket's movie
        equal to the ticket's seats; with no such movie nothing changes. The
        freed copy of the ticket's own seats is dropped: in Go it is written
        into the seat slice that the stored ticket and its copies in user
        records share. */
    method FreeSeats(ticket: Ticket)
      modifies Layouts(userUseCase.movies)
      ensures var mr := MovieRepo.Read(userUseCase.movies, ticket.movieId);
        && (mr.Success? ==>
              && mr.value.seats[..] == MarkedLayout(old(mr.value.seats[..]), ticket.seats, false)
              && unchanged(Layouts(userUseCase.movies) - {mr.value.seats}))
        && (mr.Failure? ==> unchanged(Layouts(userUseCase.movies)))
    {
      var mr := MovieRepo.Read(userUseCase.movies, ticket.movieId);
      if mr.Success? {
        var _ := MarkMatching(ticket.seats, mr.value.seats, false);
      }
    }

    /** Cancels the stored ticket `ticketId` on behalf of user `username`, as
        Cancellation describes: its movie's seats equal to the ticket's seats
        are freed (no seat map when the movie is unknown), the caller's first
        copy and the stored ticket are removed. Nothing is refunded, and the
        ticket need not belong to the caller. */
    method CancelTicket(username: string, ticketId: string) returns (r: Response)
      modifies userUseCase.users, userUseCase.tickets, Layouts(userUseCase.movies)
      ensures
        var users0, tickets0 := old(userUseCase.users.data), old(userUseCase.tickets.data);
        var ui := FirstIndex(users0, UserName, username);
        var ti := FirstIndex(tickets0, TicketId, ticketId);
        && (ui.None? ==> r == Unauthorized(EmptyData) && Untouched())
        && (ui.Some? && ti.None? ==> r == Missing(NotFound) && Untouched())
        && (ui.Some? && ti.Some? ==>
          var ticket := tickets0[ti.value];
          var mr := MovieRepo.Read(userUseCase.movies, ticket.movieId);
          var layout0 := if mr.Success? then old(mr.value.seats[..]) else [];
          var c := Cancellation(users0, tickets0, ui.value, ticket, layout0);
          && r == c.response
          && userUseCase.users.data == c.users
          && userUseCase.tickets.data == c.tickets
          && (mr.Success? ==>
                && mr.value.seats[..] == c.layout
                && unchanged(Layouts(userUseCase.movies) - {mr.value.seats}))
          && (mr.Failure? ==> unchanged(Layouts(userUseCase.movies))))
    {
      var uc := userUseCase;
      var ur := uc.users.GetByUsername(username);
      if ur.Failure? {
        return Unauthorized(ur.error);
      }
      var user := ur.value;
      var tr := uc.tickets.Read(ticketId);
      if tr.Failure? {
        return Missing(tr.error);
      }
      var ticket := tr.value;
      FreeSeats(ticket);
      ghost var k := FirstIndex(uc.users.data, UserName, username).value;
      r := Forget(k, user, ticket);
    }

    /** The last step of CancelTicket: the use case drops the ticket from the
        caller's list, stores the caller and deletes the stored ticket. */
    method Forget(ghost k: nat, user: User, ticket: Ticket) returns (r: Response)
      requires FirstIndex(userUseCase.users.data, UserName, user.username) == Some(k)
      requires userUseCase.users.data[k] == user
      requires FirstIndex(userUseCase.tickets.data, TicketId, ticket.id).Some?
      modifies userUseCase.users, userUseCase.tickets
      ensures r == Done
      ensures userUseCase.users.data == old(userUseCase.users.data)[k := user.(tickets := RemoveFirst(user.tickets, ticket.id))]
      ensures userUseCase.tickets.data == RemoveFirst(old(userUseCase.tickets.data), ticket.id)
    {
      ReadAfterUpdate(userUseCase.users.data, user.(tickets := RemoveFirst(user.tickets, ticket.id)));
      var cancelErr := userUseCase.CancelTicket(user, ticket);
      match cancelErr {
        case Some(e) => return Missing(e);
        case None => return Done;
      }
    }
  }
}
