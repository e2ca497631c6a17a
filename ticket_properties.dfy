/** What the ticket operations together guarantee: properties of a
    sequence of calls, stated over the functions of module Tickets. */
module TicketProperties {
  import opened TicketRows
  import opened Links
  import opened Tickets

  /** The in-use and writable predicates of tickets are constant: no ticket
      is ever in use, so none is ever refused for that reason, and every
      ticket in either table is writable. */
  lemma TicketsNeverInUse(ticket: nat)
    ensures !TicketInUse(ticket) && !TrashTicketInUse(ticket)
    ensures TicketWritable(ticket) && TrashTicketWritable(ticket)
  {
  }

  /** Soft-deleting a ticket that is already in the trashcan succeeds and
      changes nothing: after a first soft delete, a second one of the same
      uuid returns 0 and leaves the tables as they are, whatever the lookup
      in the active table answers short of an SQL error. */
  lemma SoftDeleteIsIdempotent(t: Tables, id: nat, inTable: Lookup)
    requires Valid(t) && id in t.tickets
    requires FindsIn(MoveToTrash(t, id).tickets, t.tickets[id].uuid, inTable) && inTable != LookupError
    ensures var once := Delete(t, true, t.tickets[id].uuid, false, Hit(id), Miss);
      && once.code == 0
      && Delete(once.tables, true, t.tickets[id].uuid, false, inTable, Hit(t.nextTrash)) == Outcome(0, once.tables)
  {
  }

  /** Where a tag or permission of the ticket `id` in `location` points
      after the ticket moved to `to` in that same location. */
  function Followed(l: Link, id: nat, to: nat, location: Location): Link
  {
    if RefersTo(l, TICKET, id, location) then l.(target := Resource(to, location)) else l
  }

  /** Soft delete followed by restore gives back the ticket with every
      column as it was (uuid, owner, name, comment, payload, timestamps),
      under a new id of the active table; the trashcan is as it was; and
      each tag and permission that referred to the ticket refers to it
      under its new id, while every other one is unchanged. */
  lemma SoftDeleteThenRestore(t: Tables, id: nat, user: UserId)
    requires Valid(t) && RefsIssued(t) && id in t.tickets
    requires !OwnedNameExists(t.tickets - {id}, t.tickets[id].name, user)
    ensures var uuid := t.tickets[id].uuid;
      var deleted := Delete(t, true, uuid, false, Hit(id), Miss);
      var restored := Restore(deleted.tables, user, uuid, Hit(t.nextTrash));
      && deleted.code == 0 && restored.code == 0
      && t.nextTicket !in t.tickets
      && restored.tables.tickets == (t.tickets - {id})[t.nextTicket := t.tickets[id]]
      && restored.tables.trash == t.trash
      && |restored.tables.tags| == |t.tags|
      && (forall i :: 0 <= i < |t.tags| ==> restored.tables.tags[i] == Followed(t.tags[i], id, t.nextTicket, Table))
      && |restored.tables.permissions| == |t.permissions|
      && (forall i :: 0 <= i < |t.permissions| ==>
            restored.tables.permissions[i] == Followed(t.permissions[i], id, t.nextTicket, Table))
  {
    var uuid := t.tickets[id].uuid;
    var deleted := MoveToTrash(t, id);
    assert Delete(t, true, uuid, false, Hit(id), Miss) == Outcome(0, deleted);
    assert !OwnedNameExists(deleted.tickets, deleted.trash[t.nextTrash].name, user);
    var restored := MoveToTable(deleted, t.nextTrash);
    assert Restore(deleted, user, uuid, Hit(t.nextTrash)) == Outcome(0, restored);
    InsertThenRemove(t.trash, t.nextTrash, t.tickets[id]);
    FollowTwice(t, t.tags, id);
    FollowTwice(t, t.permissions, id);
  }

  /** Removing a key just inserted into a map at a fresh key gives the old map back. */
  lemma InsertThenRemove(m: map<nat, Ticket>, k: nat, v: Ticket)
    requires k !in m
    ensures m[k := v] - {k} == m
  {
  }

  /** Sending the links to the trashcan under the fresh id and back to the
      table re-points exactly the links of `id`: none referred to the fresh
      trashcan id before, since that id was not yet handed out. */
  lemma FollowTwice(t: Tables, links: seq<Link>, id: nat)
    requires LinksIssued(t, links)
    ensures var back := SetLocations(SetLocations(links, TICKET, id, t.nextTrash, Trash),
                                     TICKET, t.nextTrash, t.nextTicket, Table);
      && |back| == |links|
      && forall i :: 0 <= i < |links| ==> back[i] == Followed(links[i], id, t.nextTicket, Table)
  {
  }

  /** Ultimate delete of an active ticket is final: the uuid is held by no
      row of either table, no tag or permission refers to the ticket any
      more, its tags are gone and its permissions are kept as orphans. */
  lemma UltimateDeleteIsFinal(t: Tables, id: nat)
    requires Valid(t) && id in t.tickets
    ensures var uuid := t.tickets[id].uuid;
      var r := Delete(t, true, uuid, true, Hit(id), Miss);
      && r.code == 0
      && !UuidInUse(r.tables, uuid)
      && (forall l :: l in r.tables.tags ==> !RefersTo(l, TICKET, id, Table))
      && (forall l :: l in r.tables.permissions ==> !RefersTo(l, TICKET, id, Table))
      && |r.tables.permissions| == |t.permissions|
      && (forall i :: 0 <= i < |t.permissions| && RefersTo(t.permissions[i], TICKET, id, Table) ==>
            r.tables.permissions[i].target == Orphan)
  {
  }

  /** With resource_with_name_exists answering whether the user already
      owns an active ticket of that name: a second create of the same name
      is refused with 1 and changes nothing, and once the first ticket is
      in the trashcan the same name can be created again. */
  lemma TrashedNamesDoNotBlockCreate(t: Tables, user: UserId, name: string, comment: Option<string>,
                                     u1: Uuid, u2: Uuid, now: int)
    requires Valid(t) && !UuidInUse(t, u1) && !UuidInUse(t, u2) && u1 != u2
    requires !OwnedNameExists(t.tickets, name, user)
    ensures var first := Create(t, true, OwnedNameExists(t.tickets, name, user), user, name, comment, u1, now);
      && first.code == 0
      && var second := Create(first.tables, true, OwnedNameExists(first.tables.tickets, name, user),
                              user, name, comment, u2, now);
      && second.code == 1 && second.tables == first.tables
      && var deleted := Delete(first.tables, true, u1, false, Hit(first.ticket), Miss);
      && deleted.code == 0
      && Create(deleted.tables, true, OwnedNameExists(deleted.tables.tickets, name, user),
                user, name, comment, u2, now).code == 0
  {
    var first := Create(t, true, false, user, name, comment, u1, now);
    assert first.tables.tickets[first.ticket].name == name;
    var deleted := MoveToTrash(first.tables, first.ticket);
    assert deleted.tickets == t.tickets;
  }

  /** A trashcan ticket cannot be restored over an active namesake: create
      a ticket, soft-delete it, create another of the same name, and the
      restore of the first is refused with 3 and changes nothing. */
  lemma RestoreBlockedByNamesake(t: Tables, user: UserId, name: string, u1: Uuid, u2: Uuid, now: int)
    requires Valid(t) && !UuidInUse(t, u1) && !UuidInUse(t, u2) && u1 != u2
    ensures var first := Create(t, true, false, user, name, None, u1, now);
      && first.code == 0
      && var deleted := Delete(first.tables, true, u1, false, Hit(first.ticket), Miss);
      && deleted.code == 0
      && var second := Create(deleted.tables, true, false, user, name, None, u2, now);
      && second.code == 0
      && Restore(second.tables, user, u1, Hit(t.nextTrash)) == Outcome(3, second.tables)
  {
    var first := Create(t, true, false, user, name, None, u1, now);
    var deleted := MoveToTrash(first.tables, first.ticket);
    var second := Create(deleted, true, false, user, name, None, u2, now);
    assert second.tables.tickets[second.ticket].name == name;
  }

  /** Ultimate delete of a trashcan ticket, as written, can leave a
      permission referring to a trashcan row that no longer exists. The
      weaker invariant RefsIssued still holds after it. */
  lemma PurgeTrashLeavesDanglingPermission()
    ensures var row := Ticket("t1", 1, "n", "", NO_PAYLOAD, 0, 0);
      var permission := Link(7, TICKET, Resource(1, Trash));
      var t := Tables(map[], map[1 := row], [], [permission], 1, 2);
      && Valid(t) && RefsIntact(t) && RefsIssued(t)
      && var r := Delete(t, true, "t1", true, Miss, Hit(1));
      && r.code == 0 && 1 !in r.tables.trash && permission in r.tables.permissions
      && !RefsIntact(r.tables) && RefsIssued(r.tables)
  {
  }
}
