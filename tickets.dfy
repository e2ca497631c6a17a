/** The ticket tables as one value, their invariant, and each ticket
    operation of manage_sql_tickets.c as a function from the old tables
    (and the collaborators' answers) to a result code and the new tables.
    The class in module ManageSqlTickets is proved against these functions. */
module Tickets {
  import opened TicketRows
  import opened Links

  /** The resource type under which tags and permissions refer to tickets. */
  const TICKET := "ticket"

  /** `tickets` and `tickets_trash` keyed by internal id, the tag and
      permission rows, and the next id each table's sequence hands out
      (what sql_last_insert_id reports after an INSERT). */
  datatype Tables = Tables(
    tickets: map<nat, Ticket>,
    trash: map<nat, Ticket>,
    tags: seq<Link>,
    permissions: seq<Link>,
    nextTicket: nat,
    nextTrash: nat)

  const EMPTY := Tables(map[], map[], [], [], 1, 1)

  /** The answer of find_resource_with_permission or find_trash: an SQL
      error (the C functions return TRUE), no visible row (ticket == 0), or
      the id of the row found. */
  datatype Lookup = LookupError | Miss | Hit(id: nat)

  /** A result code and the tables after the call. */
  datatype Outcome = Outcome(code: int, tables: Tables)

  /** create_ticket's result code, the id of the new ticket (0 when it
      creates nothing, in which case the C code leaves *ticket unwritten)
      and the tables after the call. */
  datatype Created = Created(code: int, ticket: nat, tables: Tables)

  /** Ids are positive (0 means "no ticket") and below their table's next
      id, so a new id is never in use; no uuid is held by two rows, in
      particular no ticket is in both tables at once. */
  ghost predicate Valid(t: Tables)
  {
    && 0 < t.nextTicket && 0 < t.nextTrash
    && (forall k :: k in t.tickets ==> 0 < k < t.nextTicket)
    && (forall k :: k in t.trash ==> 0 < k < t.nextTrash)
    && (forall a, b :: a in t.tickets && b in t.tickets && a != b ==> t.tickets[a].uuid != t.tickets[b].uuid)
    && (forall a, b :: a in t.trash && b in t.trash && a != b ==> t.trash[a].uuid != t.trash[b].uuid)
    && (forall a, b :: a in t.tickets && b in t.trash ==> t.tickets[a].uuid != t.trash[b].uuid)
  }

  /** The target's id was handed out by its table's sequence. */
  predicate Issued(t: Tables, target: Target)
  {
    match target
    case Resource(id, Table) => id < t.nextTicket
    case Resource(id, Trash) => id < t.nextTrash
    case Orphan => true
  }

  ghost predicate LinksIssued(t: Tables, links: seq<Link>)
  {
    forall l :: l in links && l.kind == TICKET ==> Issued(t, l.target)
  }

  /** Every ticket tag and permission names an id its table has already
      handed out, so none refers to a row that is yet to be inserted. Unlike
      RefsIntact, every operation as written keeps this. */
  ghost predicate RefsIssued(t: Tables)
  {
    LinksIssued(t, t.tags) && LinksIssued(t, t.permissions)
  }

  ghost predicate UuidInUse(t: Tables, uuid: Uuid)
  {
    || (exists k :: k in t.tickets && t.tickets[k].uuid == uuid)
    || (exists k :: k in t.trash && t.trash[k].uuid == uuid)
  }

  /** What a lookup may answer: a row it finds is a row of that table with
      that uuid. A miss says nothing, since the lookups also hide rows the
      user may not act on. */
  predicate FindsIn(m: map<nat, Ticket>, uuid: Uuid, found: Lookup)
  {
    found.Hit? ==> found.id in m && m[found.id].uuid == uuid
  }

  /** Some active ticket owned by `owner` is called `name`: the count(*)
      query that guards restore_ticket. */
  predicate OwnedNameExists(tickets: map<nat, Ticket>, name: string, owner: UserId)
  {
    exists k | k in tickets :: tickets[k].name == name && tickets[k].owner == owner
  }

  predicate Present(t: Tables, target: Target)
  {
    match target
    case Resource(id, Table) => id in t.tickets
    case Resource(id, Trash) => id in t.trash
    case Orphan => true
  }

  /** Every ticket tag and permission refers to a row that exists in the
      table it names (or is an orphan). */
  ghost predicate LinksIntact(t: Tables, links: seq<Link>)
  {
    forall l :: l in links && l.kind == TICKET ==> Present(t, l.target)
  }

  ghost predicate RefsIntact(t: Tables)
  {
    LinksIntact(t, t.tags) && LinksIntact(t, t.permissions)
  }

  // ---------------------------------------------------------------------
  // The in-use and writable predicates

  /** ticket_in_use: no ticket is ever in use. */
  function TicketInUse(ticket: nat): bool { false }

  /** trash_ticket_in_use: no trashcan ticket is ever in use. */
  function TrashTicketInUse(ticket: nat): bool { false }

  /** ticket_writable: every ticket is writable. */
  function TicketWritable(ticket: nat): bool { true }

  /** trash_ticket_writable: a trashcan ticket is writable when it is not in use. */
  function TrashTicketWritable(ticket: nat): bool { !TrashTicketInUse(ticket) }

  // ---------------------------------------------------------------------
  // The moves between the tables, one per branch of delete and restore

  /** Soft delete: the row is copied into tickets_trash under a fresh id,
      its tags and permissions follow it there, and it leaves tickets. */
  function MoveToTrash(t: Tables, id: nat): (r: Tables)
    requires Valid(t) && id in t.tickets
    ensures Valid(r)
    ensures r.tickets == t.tickets - {id}
    ensures t.nextTrash !in t.trash && r.trash == t.trash[t.nextTrash := t.tickets[id]]
    ensures r.tags == SetLocations(t.tags, TICKET, id, t.nextTrash, Trash)
    ensures r.permissions == SetLocations(t.permissions, TICKET, id, t.nextTrash, Trash)
    ensures r.nextTicket == t.nextTicket && r.nextTrash == t.nextTrash + 1
    ensures RefsIntact(t) ==> RefsIntact(r)
    ensures RefsIssued(t) ==> RefsIssued(r)
  {
    var n := t.nextTrash;
    var r := Tables(
      t.tickets - {id},
      t.trash[n := t.tickets[id]],
      SetLocations(t.tags, TICKET, id, n, Trash),
      SetLocations(t.permissions, TICKET, id, n, Trash),
      t.nextTicket,
      n + 1);
    assert Valid(r) by { MoveKeepsUuidsApart(t.tickets, t.trash, id, n); }
    MovePreservesLinks(t, r, t.tags, id, n, Trash);
    MovePreservesLinks(t, r, t.permissions, id, n, Trash);
    MoveKeepsIssued(t, r, t.tags, id, n, Trash);
    MoveKeepsIssued(t, r, t.permissions, id, n, Trash);
    r
  }

  /** Restore: the trashcan row is copied into tickets under a fresh id,
      its tags and permissions follow it back, and it leaves tickets_trash. */
  function MoveToTable(t: Tables, id: nat): (r: Tables)
    requires Valid(t) && id in t.trash
    ensures Valid(r)
    ensures r.trash == t.trash - {id}
    ensures t.nextTicket !in t.tickets && r.tickets == t.tickets[t.nextTicket := t.trash[id]]
    ensures r.tags == SetLocations(t.tags, TICKET, id, t.nextTicket, Table)
    ensures r.permissions == SetLocations(t.permissions, TICKET, id, t.nextTicket, Table)
    ensures r.nextTicket == t.nextTicket + 1 && r.nextTrash == t.nextTrash
    ensures RefsIntact(t) ==> RefsIntact(r)
    ensures RefsIssued(t) ==> RefsIssued(r)
  {
    var n := t.nextTicket;
    var r := Tables(
      t.tickets[n := t.trash[id]],
      t.trash - {id},
      SetLocations(t.tags, TICKET, id, n, Table),
      SetLocations(t.permissions, TICKET, id, n, Table),
      n + 1,
      t.nextTrash);
    assert Valid(r) by { MoveKeepsUuidsApart(t.trash, t.tickets, id, n); }
    MovePreservesLinks(t, r, t.tags, id, n, Table);
    MovePreservesLinks(t, r, t.permissions, id, n, Table);
    MoveKeepsIssued(t, r, t.tags, id, n, Table);
    MoveKeepsIssued(t, r, t.permissions, id, n, Table);
    r
  }

  /** Ultimate delete of an active ticket: its permissions become orphans,
      its tags are removed, and the row is gone from both tables. */
  function PurgeTable(t: Tables, id: nat): (r: Tables)
    requires Valid(t) && id in t.tickets
    ensures Valid(r)
    ensures r.tickets == t.tickets - {id} && r.trash == t.trash
    ensures r.permissions == SetOrphans(t.permissions, TICKET, id, Table)
    ensures r.tags == RemoveResource(t.tags, TICKET, id, Table)
    ensures r.nextTicket == t.nextTicket && r.nextTrash == t.nextTrash
    ensures !UuidInUse(r, t.tickets[id].uuid)
    ensures RefsIntact(t) ==> RefsIntact(r)
    ensures RefsIssued(t) ==> RefsIssued(r)
  {
    var r := t.(tickets := t.tickets - {id},
                permissions := SetOrphans(t.permissions, TICKET, id, Table),
                tags := RemoveResource(t.tags, TICKET, id, Table));
    OrphansPreserveLinks(t, r, t.permissions, id, Table);
    PurgeKeepsIssued(t, r, t.tags, id, Table);
    PurgeKeepsIssued(t, r, t.permissions, id, Table);
    r
  }

  /** Ultimate delete of a trashcan ticket, as delete_ticket does it: its
      tags are removed and the row is deleted; its permissions are left as
      they were. */
  function PurgeTrash(t: Tables, id: nat): (r: Tables)
    requires Valid(t) && id in t.trash
    ensures Valid(r)
    ensures r.trash == t.trash - {id} && r.tickets == t.tickets
    ensures r.tags == RemoveResource(t.tags, TICKET, id, Trash)
    ensures r.permissions == t.permissions
    ensures r.nextTicket == t.nextTicket && r.nextTrash == t.nextTrash
    ensures !UuidInUse(r, t.trash[id].uuid)
    ensures LinksIntact(t, t.tags) ==> LinksIntact(r, r.tags)
    ensures RefsIssued(t) ==> RefsIssued(r)
  {
    var r := t.(trash := t.trash - {id}, tags := RemoveResource(t.tags, TICKET, id, Trash));
    assert forall k :: k in r.trash ==> r.trash[k].uuid != t.trash[id].uuid;
    assert LinksIntact(t, t.tags) ==> LinksIntact(r, r.tags) by {
      if LinksIntact(t, t.tags) {
        forall l | l in r.tags && l.kind == TICKET
          ensures Present(r, l.target)
        {
          assert l in t.tags && !RefersTo(l, TICKET, id, Trash);
        }
      }
    }
    r
  }

  /** Ultimate delete of a trashcan ticket as the active-table branch does
      it: the permissions are made orphans too, so none is left referring
      to the deleted trashcan row. */
  function PurgeTrashIntended(t: Tables, id: nat): (r: Tables)
    requires Valid(t) && id in t.trash
    ensures Valid(r)
    ensures r == PurgeTrash(t, id).(permissions := SetOrphans(t.permissions, TICKET, id, Trash))
    ensures forall i :: 0 <= i < |r.permissions| ==> !RefersTo(r.permissions[i], TICKET, id, Trash)
    ensures forall l :: l in r.tags ==> !RefersTo(l, TICKET, id, Trash)
    ensures RefsIntact(t) ==> RefsIntact(r)
    ensures RefsIssued(t) ==> RefsIssued(r)
  {
    var r := t.(trash := t.trash - {id},
                permissions := SetOrphans(t.permissions, TICKET, id, Trash),
                tags := RemoveResource(t.tags, TICKET, id, Trash));
    OrphansPreserveLinks(t, r, t.permissions, id, Trash);
    PurgeKeepsIssued(t, r, t.tags, id, Trash);
    PurgeKeepsIssued(t, r, t.permissions, id, Trash);
    r
  }

  /** The row with its name and comment replaced by the supplied ones;
      modification_time is stamped when either is supplied. */
  function Edited(row: Ticket, name: Option<string>, comment: Option<string>, now: int): (r: Ticket)
    ensures r.uuid == row.uuid && r.owner == row.owner && r.payload == row.payload
    ensures r.creationTime == row.creationTime
    ensures r.name == (if name.Some? then name.value else row.name)
    ensures r.comment == (if comment.Some? then comment.value else row.comment)
    ensures r.modificationTime == (if name.Some? || comment.Some? then now else row.modificationTime)
  {
    var named := if name.Some? then row.(name := name.value, modificationTime := now) else row;
    if comment.Some? then named.(comment := comment.value, modificationTime := now) else named
  }

  // ---------------------------------------------------------------------
  // The four operations

  /** delete_ticket(ticket_id, ultimate), given acl_user_may("delete_ticket")
      as `permitted` and the answers of the two lookups of ticket_id. */
  function Delete(t: Tables, permitted: bool, ticketId: Uuid, ultimate: bool, inTable: Lookup, inTrash: Lookup): (r: Outcome)
    requires Valid(t) && FindsIn(t.tickets, ticketId, inTable) && FindsIn(t.trash, ticketId, inTrash)
    ensures Valid(r.tables)
    ensures r.code in {0, 2, 99, -1}
    ensures r.code != 0 ==> r.tables == t
    ensures RefsIssued(t) ==> RefsIssued(r.tables)
    ensures r.code == 99 <==> !permitted
    ensures r.code == -1 <==> permitted && (inTable == LookupError || (inTable == Miss && inTrash == LookupError))
    ensures r.code == 2 <==> permitted && inTable == Miss && inTrash == Miss
    ensures r.code == 0 && inTable.Hit? && !ultimate ==> r.tables == MoveToTrash(t, inTable.id)
    ensures r.code == 0 && inTable.Hit? && ultimate ==> r.tables == PurgeTable(t, inTable.id)
    ensures r.code == 0 && !inTable.Hit? ==> inTrash.Hit? && r.tables == (if ultimate then PurgeTrash(t, inTrash.id) else t)
  {
    if !permitted then Outcome(99, t)
    else match inTable
      case LookupError => Outcome(-1, t)
      case Hit(id) => Outcome(0, if ultimate then PurgeTable(t, id) else MoveToTrash(t, id))
      case Miss =>
        match inTrash
        case LookupError => Outcome(-1, t)
        case Miss => Outcome(2, t)
        case Hit(id) => Outcome(0, if ultimate then PurgeTrash(t, id) else t)
  }

  /** restore_ticket(ticket_id) run by `user`, given the answer of
      find_trash. */
  function Restore(t: Tables, user: UserId, ticketId: Uuid, inTrash: Lookup): (r: Outcome)
    requires Valid(t) && FindsIn(t.trash, ticketId, inTrash)
    ensures Valid(r.tables)
    ensures r.code in {0, 2, 3, -1}
    ensures r.code != 0 ==> r.tables == t
    ensures RefsIssued(t) ==> RefsIssued(r.tables)
    ensures r.code == -1 <==> inTrash == LookupError
    ensures r.code == 2 <==> inTrash == Miss
    ensures r.code == 3 <==> inTrash.Hit? && OwnedNameExists(t.tickets, t.trash[inTrash.id].name, user)
    ensures r.code == 0 ==> inTrash.Hit? && r.tables == MoveToTable(t, inTrash.id)
  {
    match inTrash
    case LookupError => Outcome(-1, t)
    case Miss => Outcome(2, t)
    case Hit(id) =>
      if OwnedNameExists(t.tickets, t.trash[id].name, user) then Outcome(3, t)
      else Outcome(0, MoveToTable(t, id))
  }

  /** create_ticket(name, comment) run by `user`, given
      acl_user_may("create_ticket") as `permitted`, the answer of
      resource_with_name_exists as `nameTaken`, the uuid make_uuid made and
      the time m_now gave. */
  function Create(t: Tables, permitted: bool, nameTaken: bool, user: UserId, name: string,
                  comment: Option<string>, uuid: Uuid, now: int): (r: Created)
    requires Valid(t) && !UuidInUse(t, uuid)
    ensures Valid(r.tables)
    ensures r.code in {0, 1, 99}
    ensures r.code == 99 <==> !permitted
    ensures r.code == 1 <==> permitted && nameTaken
    ensures r.code != 0 ==> r.ticket == 0 && r.tables == t
    ensures r.code == 0 ==>
      && r.ticket == t.nextTicket && r.ticket !in t.tickets
      && r.tables == t.(tickets := t.tickets[r.ticket := Ticket(uuid, user, name,
                                                               if comment.Some? then comment.value else "",
                                                               NO_PAYLOAD, now, now)],
                        nextTicket := r.ticket + 1)
    ensures RefsIntact(t) ==> RefsIntact(r.tables)
    ensures RefsIssued(t) ==> RefsIssued(r.tables)
  {
    if !permitted then Created(99, 0, t)
    else if nameTaken then Created(1, 0, t)
    else
      var n := t.nextTicket;
      var row := Ticket(uuid, user, name, if comment.Some? then comment.value else "", NO_PAYLOAD, now, now);
      Created(0, n, t.(tickets := t.tickets[n := row], nextTicket := n + 1))
  }

  /** modify_ticket(ticket_id, name, comment), given
      acl_user_may("modify_ticket") as `permitted`, the answer of
      find_resource_with_permission, the answer of resource_with_name_exists
      (which leaves the ticket itself out) as `nameTaken`, and m_now. */
  function Modify(t: Tables, permitted: bool, ticketId: Uuid, found: Lookup, name: Option<string>,
                  comment: Option<string>, nameTaken: bool, now: int): (r: Outcome)
    requires Valid(t) && FindsIn(t.tickets, ticketId, found)
    ensures Valid(r.tables)
    ensures r.code in {0, 1, 9, 11, 99, -1}
    ensures r.code != 0 ==> r.tables == t
    ensures r.code == 99 <==> !permitted
    ensures r.code == -1 <==> permitted && found == LookupError
    ensures r.code == 9 <==> permitted && found == Miss
    ensures r.code == 11 <==> permitted && found.Hit? && name == Some("")
    ensures r.code == 1 <==> permitted && found.Hit? && name.Some? && name.value != "" && nameTaken
    ensures r.code == 0 ==>
      && found.Hit?
      && r.tables == t.(tickets := t.tickets[found.id := Edited(t.tickets[found.id], name, comment, now)])
    ensures RefsIntact(t) ==> RefsIntact(r.tables)
    ensures RefsIssued(t) ==> RefsIssued(r.tables)
  {
    if !permitted then Outcome(99, t)
    else match found
      case LookupError => Outcome(-1, t)
      case Miss => Outcome(9, t)
      case Hit(id) =>
        if name == Some("") then Outcome(11, t)
        else if name.Some? && nameTaken then Outcome(1, t)
        else Outcome(0, t.(tickets := t.tickets[id := Edited(t.tickets[id], name, comment, now)]))
  }

  // ---------------------------------------------------------------------
  // Helper lemmas for the moves

  /** Moving row `id` from `src` to a fresh key `n` of `dst` keeps every uuid
      in one row only. */
  lemma MoveKeepsUuidsApart(src: map<nat, Ticket>, dst: map<nat, Ticket>, id: nat, n: nat)
    requires id in src && n !in dst
    requires forall a, b :: a in src && b in src && a != b ==> src[a].uuid != src[b].uuid
    requires forall a, b :: a in dst && b in dst && a != b ==> dst[a].uuid != dst[b].uuid
    requires forall a, b :: a in src && b in dst ==> src[a].uuid != dst[b].uuid
    ensures var src', dst' := src - {id}, dst[n := src[id]];
      && (forall a, b :: a in src' && b in src' && a != b ==> src'[a].uuid != src'[b].uuid)
      && (forall a, b :: a in dst' && b in dst' && a != b ==> dst'[a].uuid != dst'[b].uuid)
      && (forall a, b :: a in src' && b in dst' ==> src'[a].uuid != dst'[b].uuid)
      && (forall a, b :: a in dst' && b in src' ==> dst'[a].uuid != src'[b].uuid)
  {
  }

  /** A move that re-points the links of `id` at the fresh row `n` in
      `location` keeps those links intact. */
  lemma MovePreservesLinks(t: Tables, r: Tables, links: seq<Link>, id: nat, n: nat, location: Location)
    requires location == Trash ==> id in t.tickets && r.trash == t.trash[n := t.tickets[id]] && r.tickets == t.tickets - {id}
    requires location == Table ==> id in t.trash && r.tickets == t.tickets[n := t.trash[id]] && r.trash == t.trash - {id}
    ensures LinksIntact(t, links) ==> LinksIntact(r, SetLocations(links, TICKET, id, n, location))
  {
  }

  /** A move that re-points the links of `id` at the id `n` just handed
      out in `location`, while both sequences only advance, keeps every
      reference issued. */
  lemma MoveKeepsIssued(t: Tables, r: Tables, links: seq<Link>, id: nat, n: nat, location: Location)
    requires t.nextTicket <= r.nextTicket && t.nextTrash <= r.nextTrash
    requires Issued(r, Resource(n, location))
    ensures LinksIssued(t, links) ==> LinksIssued(r, SetLocations(links, TICKET, id, n, location))
  {
  }

  /** Orphaning or removing links, while both sequences stay where they
      are, keeps every reference issued. */
  lemma PurgeKeepsIssued(t: Tables, r: Tables, links: seq<Link>, id: nat, location: Location)
    requires t.nextTicket == r.nextTicket && t.nextTrash == r.nextTrash
    ensures LinksIssued(t, links) ==> LinksIssued(r, SetOrphans(links, TICKET, id, location))
    ensures LinksIssued(t, links) ==> LinksIssued(r, RemoveResource(links, TICKET, id, location))
  {
  }

  /** Making the links of `id` at `location` orphans keeps the links intact
      once that row is gone. */
  lemma OrphansPreserveLinks(t: Tables, r: Tables, links: seq<Link>, id: nat, location: Location)
    requires location == Table ==> r.tickets == t.tickets - {id} && r.trash == t.trash
    requires location == Trash ==> r.trash == t.trash - {id} && r.tickets == t.tickets
    ensures LinksIntact(t, links) ==> LinksIntact(r, SetOrphans(links, TICKET, id, location))
  {
  }
}
