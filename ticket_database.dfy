/** The ticket tables as the mutable state the C functions work on, and
    delete_ticket, restore_ticket, create_ticket and modify_ticket as
    methods that change it statement by statement, each proved to end in
    the state and result code its function in module Tickets gives. */
module ManageSqlTickets {
  import opened TicketRows
  import opened Links
  import opened Tickets

  class TicketDatabase {
    var tickets: map<nat, Ticket>
    var trash: map<nat, Ticket>
    var tags: seq<Link>
    var permissions: seq<Link>
    var nextTicketId: nat
    var nextTrashId: nat
    /** Between sql_begin_immediate and the sql_commit or sql_rollback that ends it. */
    var inTransaction: bool

    function Snapshot(): Tables
      reads this
    {
      Tables(tickets, trash, tags, permissions, nextTicketId, nextTrashId)
    }

    /** The table invariant, and every reference names an issued id. */
    ghost predicate Valid()
      reads this
    {
      Tickets.Valid(Snapshot()) && RefsIssued(Snapshot())
    }

    constructor ()
      ensures Valid() && Snapshot() == EMPTY && !inTransaction
    {
      tickets, trash := map[], map[];
      tags, permissions := [], [];
      nextTicketId, nextTrashId := 1, 1;
      inTransaction := false;
    }

    /** INSERT INTO tickets_trash ... followed by sql_last_insert_id. */
    method InsertIntoTrash(row: Ticket) returns (id: nat)
      modifies this`trash, this`nextTrashId
      ensures id == old(nextTrashId) && nextTrashId == id + 1
      ensures trash == old(trash)[id := row]
    {
      id := nextTrashId;
      trash := trash[id := row];
      nextTrashId := id + 1;
    }

    /** INSERT INTO tickets ... followed by sql_last_insert_id. */
    method InsertIntoTickets(row: Ticket) returns (id: nat)
      modifies this`tickets, this`nextTicketId
      ensures id == old(nextTicketId) && nextTicketId == id + 1
      ensures tickets == old(tickets)[id := row]
    {
      id := nextTicketId;
      tickets := tickets[id := row];
      nextTicketId := id + 1;
    }

    /** delete_ticket. Every path opens a transaction and ends it. */
    method DeleteTicket(ticketId: Uuid, ultimate: bool, permitted: bool, inTable: Lookup, inTrash: Lookup)
      returns (code: int)
      requires Valid()
      requires FindsIn(tickets, ticketId, inTable) && FindsIn(trash, ticketId, inTrash)
      modifies this
      ensures Valid() && !inTransaction
      ensures var r := Delete(old(Snapshot()), permitted, ticketId, ultimate, inTable, inTrash);
        code == r.code && Snapshot() == r.tables
    {
      ghost var before := Snapshot();
      ghost var spec := Delete(before, permitted, ticketId, ultimate, inTable, inTrash);
      inTransaction := true;
      if !permitted {
        inTransaction := false;
        return 99;
      }
      if inTable.LookupError? {
        inTransaction := false;
        return -1;
      }
      if inTable.Miss? {
        if inTrash.LookupError? {
          inTransaction := false;
          return -1;
        }
        if inTrash.Miss? {
          inTransaction := false;
          return 2;
        }
        var ticket := inTrash.id;
        if !ultimate {
          // Already in the trashcan.
          inTransaction := false;
          return 0;
        }
        PurgeTrashRow(ticket);
        assert spec == Outcome(0, Snapshot());
        inTransaction := false;
        return 0;
      }

      var ticket := inTable.id;
      if !ultimate {
        SoftDeleteRow(ticket);
      } else {
        PurgeRow(ticket);
      }
      assert spec == Outcome(0, Snapshot());
      inTransaction := false;
      code := 0;
    }

    /** The soft-delete statements of delete_ticket: copy the row into the
        trashcan, re-point its permissions and tags, delete the row. */
    method SoftDeleteRow(ticket: nat)
      requires Valid() && ticket in tickets
      modifies this`tickets, this`trash, this`nextTrashId, this`tags, this`permissions
      ensures Snapshot() == MoveToTrash(old(Snapshot()), ticket)
    {
      var trashTicket := InsertIntoTrash(tickets[ticket]);
      permissions := SetLocations(permissions, TICKET, ticket, trashTicket, Trash);
      tags := SetLocations(tags, TICKET, ticket, trashTicket, Trash);
      tickets := tickets - {ticket};
    }

    /** The ultimate-delete statements of delete_ticket for an active
        ticket: orphan its permissions, remove its tags, delete the row. */
    method PurgeRow(ticket: nat)
      requires Valid() && ticket in tickets
      modifies this`tickets, this`tags, this`permissions
      ensures Snapshot() == PurgeTable(old(Snapshot()), ticket)
    {
      permissions := SetOrphans(permissions, TICKET, ticket, Table);
      tags := RemoveResource(tags, TICKET, ticket, Table);
      tickets := tickets - {ticket};
    }

    /** The ultimate-delete statements of delete_ticket for a trashcan
        ticket, as written: remove its trashcan tags, delete the row. */
    method PurgeTrashRow(ticket: nat)
      requires Valid() && ticket in trash
      modifies this`trash, this`tags
      ensures Snapshot() == PurgeTrash(old(Snapshot()), ticket)
    {
      tags := RemoveResource(tags, TICKET, ticket, Trash);
      trash := trash - {ticket};
    }

    /** restore_ticket, run by `user` inside a transaction its caller
        opened. It ends that transaction on every path except the one that
        finds no trashcan ticket. */
    method RestoreTicket(ticketId: Uuid, user: UserId, inTrash: Lookup) returns (code: int)
      requires Valid()
      requires FindsIn(trash, ticketId, inTrash)
      modifies this
      ensures Valid()
      ensures var r := Restore(old(Snapshot()), user, ticketId, inTrash);
        code == r.code && Snapshot() == r.tables
      ensures inTransaction == (code == 2 && old(inTransaction))
    {
      ghost var before := Snapshot();
      ghost var spec := Restore(before, user, ticketId, inTrash);
      if inTrash.LookupError? {
        inTransaction := false;
        return -1;
      }
      if inTrash.Hit? {
        var ticket := inTrash.id;
        if OwnedNameExists(tickets, trash[ticket].name, user) {
          inTransaction := false;
          return 3;
        }
        var restored := InsertIntoTickets(trash[ticket]);
        permissions := SetLocations(permissions, TICKET, ticket, restored, Table);
        tags := SetLocations(tags, TICKET, ticket, restored, Table);
        trash := trash - {ticket};
        assert Snapshot() == MoveToTable(before, ticket);
        inTransaction := false;
        return 0;
      }
      return 2;
    }

    /** create_ticket, run by `user`; `uuid` and `now` are what make_uuid
        and m_now give. */
    method CreateTicket(name: string, comment: Option<string>, user: UserId, permitted: bool,
                        nameTaken: bool, uuid: Uuid, now: int)
      returns (code: int, ticket: nat)
      requires Valid() && !UuidInUse(Snapshot(), uuid)
      modifies this
      ensures Valid() && !inTransaction
      ensures var r := Create(old(Snapshot()), permitted, nameTaken, user, name, comment, uuid, now);
        code == r.code && ticket == r.ticket && Snapshot() == r.tables
    {
      ghost var spec := Create(Snapshot(), permitted, nameTaken, user, name, comment, uuid, now);
      inTransaction := true;
      ticket := 0;
      if !permitted {
        inTransaction := false;
        return 99, 0;
      }
      if nameTaken {
        inTransaction := false;
        return 1, 0;
      }
      var quotedComment := if comment.Some? then comment.value else "";
      ticket := InsertIntoTickets(Ticket(uuid, user, name, quotedComment, NO_PAYLOAD, now, now));
      inTransaction := false;
      code := 0;
    }

    /** modify_ticket; `nameTaken` is what resource_with_name_exists says of
        the new name with this ticket left out. */
    method ModifyTicket(ticketId: Uuid, name: Option<string>, comment: Option<string>, permitted: bool,
                        found: Lookup, nameTaken: bool, now: int)
      returns (code: int)
      requires Valid()
      requires FindsIn(tickets, ticketId, found)
      modifies this
      ensures Valid() && !inTransaction
      ensures var r := Modify(old(Snapshot()), permitted, ticketId, found, name, comment, nameTaken, now);
        code == r.code && Snapshot() == r.tables
    {
      ghost var before := Snapshot();
      ghost var spec := Modify(before, permitted, ticketId, found, name, comment, nameTaken, now);
      inTransaction := true;
      if !permitted {
        inTransaction := false;
        return 99;
      }
      if found.LookupError? {
        inTransaction := false;
        return -1;
      }
      if found.Miss? {
        inTransaction := false;
        return 9;
      }
      var ticket := found.id;
      ghost var row := tickets[ticket];
      if name.Some? {
        if |name.value| == 0 {
          inTransaction := false;
          return 11;
        }
        if nameTaken {
          inTransaction := false;
          return 1;
        }
        tickets := tickets[ticket := tickets[ticket].(name := name.value, modificationTime := now)];
      }
      if comment.Some? {
        tickets := tickets[ticket := tickets[ticket].(comment := comment.value, modificationTime := now)];
      }
      assert tickets == before.tickets[ticket := Edited(row, name, comment, now)];
      assert Snapshot() == spec.tables;
      inTransaction := false;
      code := 0;
    }
  }
}
