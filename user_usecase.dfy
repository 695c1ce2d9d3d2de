/** The business rules of the user module (modules/user/usecase.go): the age
    gate, the balance check, the seat-availability batch check, balance
    top-up and withdrawal, and attaching a ticket to a user or detaching it. */
module UserUseCase {
  import opened Common
  import opened Entities
  import MovieRepo
  import opened TicketRepo
  import opened UserRepo

  /** Most seats one purchase may request. */
  const MaxSeatsPerPurchase := 6

  /** A user younger than the movie's age rating is turned away; a user whose
      age equals the rating is admitted. */
  function NotPermitted(m: Movie, u: User): (r: bool)
    ensures r <==> u.age < m.ageRating
    ensures u.age == m.ageRating ==> !r
  {
    m.ageRating > u.age
  }

  /** BALANCE_INSUFFICIENT exactly when the balance is below the price. */
  function CheckBalance(u: User, price: int): (r: Option<Error>)
    ensures r.Some? <==> u.balance < price
    ensures r.Some? ==> r.value == BalanceInsufficient
  {
    if u.balance < price then Some(BalanceInsufficient) else None
  }

  /** The first seat of the map at the requested position exists and is free. */
  predicate Available(layout: seq<Seat>, s: Seat) {
    var i := FirstIndex(layout, SeatKey, SeatKey(s));
    i.Some? && !layout[i.value].booked
  }

  /** What CheckAvailability answers for a request against a seat map: too
      many seats, a seat that is missing or taken, an empty request, or the
      first matching seat of the map for every requested seat, in order. */
  function Availability(layout: seq<Seat>, request: seq<Seat>): (r: Result<seq<Seat>>)
    ensures |request| > MaxSeatsPerPurchase ==> r == Failure(MaxTicketReach)
    ensures r.Success? <==>
      0 < |request| <= MaxSeatsPerPurchase && forall k :: 0 <= k < |request| ==> Available(layout, request[k])
    ensures r.Failure? && |request| <= MaxSeatsPerPurchase ==>
      r.error == (if |request| == 0 then TicketUnavailable else Panic)
    ensures r.Success? ==> |r.value| == |request| && forall k :: 0 <= k < |request| ==>
      && SeatKey(r.value[k]) == SeatKey(request[k])
      && !r.value[k].booked
      && r.value[k] == layout[FirstIndex(layout, SeatKey, SeatKey(request[k])).value]
  {
    if |request| > MaxSeatsPerPurchase then Failure(MaxTicketReach)
    else if exists k :: 0 <= k < |request| && !Available(layout, request[k]) then Failure(Panic)
    else if |request| == 0 then Failure(TicketUnavailable)
    else Success(seq(|request|, k requires 0 <= k < |request| =>
      layout[FirstIndex(layout, SeatKey, SeatKey(request[k])).value]))
  }

  /** A seat requested twice in one batch is not rejected: asking twice for
      one free seat succeeds and yields that seat twice. */
  lemma RepeatedSeatAccepted(layout: seq<Seat>, s: Seat)
    requires Available(layout, s)
    ensures Availability(layout, [s, s]).Success?
    ensures |Availability(layout, [s, s]).value| == 2
  {
    var r := Availability(layout, [s, s]);
    assert forall k :: 0 <= k < 2 ==> [s, s][k] == s;
  }

  /** The top-up applied to a balance of 1 with the largest `int` amount
      wraps to the smallest `int`: the balance TopUp stores is negative. */
  lemma TopUpWraps(u: User, n: int)
    requires u.balance == 1 && n == Int64Max
    ensures Wrap64(u.balance + n) == Int64Min < 0
  {
  }

  /** The inner search of CheckAvailability: the index of the first seat of
      the map at the position of `s`, or -1 when there is none. */
  method FindSeat(layout: array<Seat>, s: Seat) returns (found: int)
    ensures found < 0 <==> FirstIndex(layout[..], SeatKey, SeatKey(s)).None?
    ensures found >= 0 ==> FirstIndex(layout[..], SeatKey, SeatKey(s)) == Some(found)
  {
    found := -1;
    var i := 0;
    while i < layout.Length && found < 0
      invariant 0 <= i <= layout.Length
      invariant found < 0 ==> forall j :: 0 <= j < i ==> SeatKey(layout[j]) != SeatKey(s)
      invariant found >= 0 ==> FirstIndex(layout[..], SeatKey, SeatKey(s)) == Some(found)
    {
      if s.row == layout[i].row && s.number == layout[i].number {
        FirstIndexAt(layout[..], SeatKey, SeatKey(s), i);
        found := i;
      }
      i := i + 1;
    }
  }

  class UseCase {
    const users: UserRepository
    const movies: seq<Movie>
    const tickets: TicketRepository

    constructor (users: UserRepository, movies: seq<Movie>, tickets: TicketRepository)
      ensures this.users == users && this.movies == movies && this.tickets == tickets
    {
      this.users := users;
      this.movies := movies;
      this.tickets := tickets;
    }

    /** Looks up every requested seat in the movie's seat map, first match by
        row and number. On a miss or a booked seat it resets the previously
        found seat to free (it is free already, so no flag changes) and fails. */
    method CheckAvailability(request: seq<Seat>, layout: array<Seat>) returns (r: Result<seq<Seat>>)
      modifies layout
      ensures layout[..] == old(layout[..])
      ensures r == Availability(old(layout[..]), request)
    {
      if |request| > MaxSeatsPerPurchase {
        return Failure(MaxTicketReach);
      }
      var seats: seq<Seat> := [];
      var prev := -1;  // index of the seat found for the previous request; -1 for none
      var n := 0;
      while n < |request|
        invariant 0 <= n <= |request|
        invariant layout[..] == old(layout[..])
        invariant -1 <= prev < layout.Length
        invariant prev >= 0 ==> !layout[prev].booked
        invariant forall k :: 0 <= k < n ==> Available(layout[..], request[k])
        invariant |seats| == n
        invariant forall k :: 0 <= k < n ==>
          seats[k] == layout[FirstIndex(layout[..], SeatKey, SeatKey(request[k])).value]
      {
        var found := FindSeat(layout, request[n]);
        if found < 0 || layout[found].booked {
          assert !Available(layout[..], request[n]);
          if prev >= 0 {
            assert layout[prev].(booked := false) == layout[prev];
            layout[prev] := layout[prev].(booked := false);
          }
          return Failure(Panic);
        }
        prev := found;
        seats := seats + [layout[found]];
        n := n + 1;
      }
      if |request| > |seats| || seats == [] {
        return Failure(TicketUnavailable);
      }
      assert seats == Availability(layout[..], request).value;
      return Success(seats);
    }

    /** Adds `n` to the caller's copy of the user and stores it; a negative
        amount is refused and changes nothing. The addition is Go's 64-bit
        `+=`, so the new balance is exact, and stays non-negative, only while
        the sum fits in an `int`; past that it wraps. */
    method TopUp(u: User, n: int) returns (u': User, err: Option<Error>)
      modifies users
      ensures n < 0 ==> u' == u && err == Some(NegativeValue) && users.data == old(users.data)
      ensures n >= 0 ==> u' == u.(balance := Wrap64(u.balance + n)) && users.data == ReplaceFirst(old(users.data), u')
      ensures n >= 0 ==> (err.None? <==> FirstIndex(old(users.data), UserName, u.username).Some?)
      ensures n >= 0 && InInt64(u.balance + n) ==> u'.balance == u.balance + n
      ensures u.balance >= 0 && InInt64(u.balance + n) ==> u'.balance >= 0
    {
      if n < 0 {
        return u, Some(NegativeValue);
      }
      u' := u.(balance := Wrap64(u.balance + n));
      err := users.Update(u');
    }

    /** Subtracts `n` from the caller's copy of the user and stores it; a
        negative amount or one above the balance is refused and changes
        nothing. */
    method Withdraw(u: User, n: int) returns (u': User, err: Option<Error>)
      modifies users
      ensures n < 0 ==> u' == u && err == Some(NegativeValue) && users.data == old(users.data)
      ensures 0 <= n && n > u.balance ==> u' == u && err == Some(BalanceInsufficient) && users.data == old(users.data)
      ensures 0 <= n <= u.balance ==> u' == u.(balance := u.balance - n) && users.data == ReplaceFirst(old(users.data), u')
      ensures 0 <= n <= u.balance ==> (err.None? <==> FirstIndex(old(users.data), UserName, u.username).Some?)
      ensures u.balance >= 0 ==> u'.balance >= 0
    {
      if n < 0 {
        return u, Some(NegativeValue);
      }
      if n > u.balance {
        return u, Some(BalanceInsufficient);
      }
      u' := u.(balance := u.balance - n);
      err := users.Update(u');
    }

    /** Stores the ticket (an update that always reports NOT_FOUND, then a
        create) and, only if the create succeeds, appends it to the user's
        list and stores the user. A clashing ID fails after the update has
        already overwritten the stored ticket with that ID. */
    method BuyTicket(u: User, t: Ticket) returns (err: Option<Error>)
      modifies users, tickets
      ensures FirstIndex(old(tickets.data), TicketId, t.id).Some? ==>
        && err == Some(DuplicateTicket)
        && tickets.data == OverwriteAll(old(tickets.data), t)
        && users.data == old(users.data)
      ensures FirstIndex(old(tickets.data), TicketId, t.id).None? ==>
        && tickets.data == old(tickets.data) + [t]
        && users.data == ReplaceFirst(old(users.data), u.(tickets := u.tickets + [t]))
        && (err.None? <==> FirstIndex(old(users.data), UserName, u.username).Some?)
        && (err.Some? ==> err.value == UserNotFound)
    {
      var updated := tickets.Update(t);
      if updated.Some? {
        assert forall i :: 0 <= i < |tickets.data| ==> tickets.data[i].id == old(tickets.data)[i].id;
        var created := tickets.Create(t);
        if created.Some? {
          return created;
        }
      }
      var u' := u.(tickets := u.tickets + [t]);
      err := users.Update(u');
    }

    /** Removes the first ticket with t's ID from the user's list, stores the
        user and then deletes the ticket from the store. The balance is left
        as it is: nothing is refunded. */
    method CancelTicket(u: User, t: Ticket) returns (err: Option<Error>)
      modifies users, tickets
      ensures users.data == ReplaceFirst(old(users.data), u.(tickets := RemoveFirst(u.tickets, t.id)))
      ensures FirstIndex(old(users.data), UserName, u.username).None? ==>
        err == Some(UserNotFound) && tickets.data == old(tickets.data)
      ensures FirstIndex(old(users.data), UserName, u.username).Some? ==>
        && tickets.data == RemoveFirst(old(tickets.data), t.id)
        && (err.None? <==> FirstIndex(old(tickets.data), TicketId, t.id).Some?)
        && (err.Some? ==> err.value == NotFound)
    {
      var held := u.tickets;
      var i := 0;
      while i < |held|
        invariant 0 <= i <= |held|
        invariant held == u.tickets
        invariant forall j :: 0 <= j < i ==> held[j].id != t.id
      {
        if t.id == held[i].id {
          FirstIndexAt(held, TicketId, t.id, i);
          held := held[..i] + held[i + 1..];
          break;
        }
        i := i + 1;
      }
      assert held == RemoveFirst(u.tickets, t.id);
      var u' := u.(tickets := held);
      err := users.Update(u');
      if err.Some? {
        return err;
      }
      err := tickets.Delete(t);
    }
  }
}
