/** The in-memory ticket store (repositories/ticket.go): a slice of tickets
    that Create appends to, Update overwrites and Delete splices. */
module TicketRepo {
  import opened Common
  import opened Entities

  /** Ticket IDs in the store are pairwise different. */
  ghost predicate UniqueIds(data: seq<Ticket>) {
    forall i, j :: 0 <= i < j < |data| ==> data[i].id != data[j].id
  }

  /** The store after Update(t): every ticket with t's ID is replaced by t. */
  function OverwriteAll(data: seq<Ticket>, t: Ticket): (r: seq<Ticket>)
    ensures |r| == |data|
    ensures forall i :: 0 <= i < |r| ==> r[i] == (if data[i].id == t.id then t else data[i])
  {
    seq(|data|, i requires 0 <= i < |data| => if data[i].id == t.id then t else data[i])
  }

  /** `data` without the ticket at position `k`, the others in their order. */
  function RemoveAt(data: seq<Ticket>, k: nat): (r: seq<Ticket>)
    requires k < |data|
    ensures |r| == |data| - 1
    ensures forall i :: 0 <= i < k ==> r[i] == data[i]
    ensures forall i :: k <= i < |r| ==> r[i] == data[i + 1]
  {
    data[..k] + data[k + 1..]
  }

  /** `data` without its first ticket whose ID is `id`; unchanged when there
      is none. Deleting from the store and cancelling from a user's list both
      remove tickets this way. */
  function RemoveFirst(data: seq<Ticket>, id: string): (r: seq<Ticket>)
    ensures FirstIndex(data, TicketId, id).None? ==> r == data
    ensures FirstIndex(data, TicketId, id).Some? ==> |r| == |data| - 1
  {
    match FirstIndex(data, TicketId, id)
    case None => data
    case Some(k) => RemoveAt(data, k)
  }

  class TicketRepository {
    var data: seq<Ticket>

    constructor (data: seq<Ticket>)
      ensures this.data == data
    {
      this.data := data;
    }

    /** Appends `t` unless a ticket with the same ID is already stored. */
    method Create(t: Ticket) returns (err: Option<Error>)
      modifies this
      ensures err.Some? <==> FirstIndex(old(data), TicketId, t.id).Some?
      ensures err.Some? ==> err.value == DuplicateTicket && data == old(data)
      ensures err.None? ==> data == old(data) + [t]
      ensures UniqueIds(old(data)) ==> UniqueIds(data)
    {
      var i := 0;
      while i < |data|
        invariant 0 <= i <= |data|
        invariant forall j :: 0 <= j < i ==> data[j].id != t.id
      {
        if data[i].id == t.id {
          FirstIndexAt(data, TicketId, t.id, i);
          return Some(DuplicateTicket);
        }
        i := i + 1;
      }
      data := data + [t];
      return None;
    }

    /** The first stored ticket with the given ID, or NOT_FOUND. */
    method Read(id: string) returns (r: Result<Ticket>)
      ensures FirstIndex(data, TicketId, id).Some? ==> r == Success(data[FirstIndex(data, TicketId, id).value])
      ensures FirstIndex(data, TicketId, id).None? ==> r == Failure(NotFound)
    {
      var i := 0;
      while i < |data|
        invariant 0 <= i <= |data|
        invariant forall j :: 0 <= j < i ==> data[j].id != id
      {
        if data[i].id == id {
          FirstIndexAt(data, TicketId, id, i);
          return Success(data[i]);
        }
        i := i + 1;
      }
      return Failure(NotFound);
    }

    /** Overwrites every ticket with t's ID and, whatever it found, reports
        NOT_FOUND. */
    method Update(t: Ticket) returns (err: Option<Error>)
      modifies this
      ensures data == OverwriteAll(old(data), t)
      ensures err == Some(NotFound)
    {
      var i := 0;
      while i < |data|
        invariant 0 <= i <= |data| == |old(data)|
        invariant forall j :: 0 <= j < i ==> data[j] == (if old(data)[j].id == t.id then t else old(data)[j])
        invariant forall j :: i <= j < |data| ==> data[j] == old(data)[j]
      {
        if data[i].id == t.id {
          data := data[i := t];
        }
        i := i + 1;
      }
      return Some(NotFound);
    }

    /** Removes the first ticket with t's ID, keeping the others in order,
        or reports NOT_FOUND and changes nothing. */
    method Delete(t: Ticket) returns (err: Option<Error>)
      modifies this
      ensures data == RemoveFirst(old(data), t.id)
      ensures err.None? <==> FirstIndex(old(data), TicketId, t.id).Some?
      ensures err.Some? ==> err.value == NotFound
    {
      var i := 0;
      while i < |data|
        invariant 0 <= i <= |data|
        invariant forall j :: 0 <= j < i ==> data[j].id != t.id
      {
        if data[i].id == t.id {
          FirstIndexAt(data, TicketId, t.id, i);
          data := data[..i] + data[i + 1..];
          return None;
        }
        i := i + 1;
      }
      return Some(NotFound);
    }
  }

  /** A successful Create keeps the IDs unique. */
  lemma CreateKeepsIdsUnique(data: seq<Ticket>, t: Ticket)
    requires UniqueIds(data)
    requires FirstIndex(data, TicketId, t.id).None?
    ensures UniqueIds(data + [t])
  {
  }

  /** After a successful Create(t), Read(t.ID) finds t at the end. */
  lemma ReadAfterCreate(data: seq<Ticket>, t: Ticket)
    requires FirstIndex(data, TicketId, t.id).None?
    ensures FirstIndex(data + [t], TicketId, t.id) == Some(|data|)
    ensures (data + [t])[|data|] == t
  {
    FirstIndexAppend(data, t, TicketId, t.id);
  }

  /** A successful Create(t) followed by Delete(t) restores the store. */
  lemma DeleteAfterCreateRestores(data: seq<Ticket>, t: Ticket)
    requires FirstIndex(data, TicketId, t.id).None?
    ensures RemoveFirst(data + [t], t.id) == data
  {
    ReadAfterCreate(data, t);
    assert (data + [t])[..|data|] == data;
  }

  /** Delete keeps IDs unique, and in a store with unique IDs the deleted
      ID can no longer be read. */
  lemma {:induction false} DeleteRemovesId(data: seq<Ticket>, id: string)
    requires UniqueIds(data)
    ensures UniqueIds(RemoveFirst(data, id))
    ensures FirstIndex(RemoveFirst(data, id), TicketId, id).None?
  {
    var r := RemoveFirst(data, id);
    match FirstIndex(data, TicketId, id)
    case None =>
    case Some(k) =>
      forall i | 0 <= i < |r| ensures r[i].id != id {
        if i < k { assert r[i] == data[i]; } else { assert r[i] == data[i + 1]; }
      }
  }
}
