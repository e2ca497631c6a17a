# Ticket trashcan lifecycle (gvmd `manage_sql_tickets.c`)

This project models how the GVM management daemon moves a ticket through its lifecycle.
A ticket row lives either in the active table `tickets` or in the trashcan table `tickets_trash`.
Tags and permissions refer to a ticket by (resource type, id, location), where the location is
LOCATION_TABLE or LOCATION_TRASH.
The model covers:

- `create_ticket`;
- `modify_ticket`;
- `delete_ticket`, in all three of its branches (soft delete, ultimate delete from the table,
  ultimate delete from the trashcan);
- `restore_ticket`;
- the constant in-use and writable predicates.

Layout:

- `ticket_rows.dfy` (module `TicketRows`): the columns of a ticket row.
- `links.dfy` (module `Links`): tag and permission rows, and the three bulk updates the
  operations send them through: `tags_set_locations`/`permissions_set_locations`,
  `permissions_set_orphans` and `tags_remove_resource`.
- `tickets.dfy` (module `Tickets`): both tables as one value `Tables` with its invariant `Valid`.
  `Valid` says that ids are positive and below each table's next id, and that no uuid is held by
  two rows, so no ticket is ever in both tables. Two invariants of the references sit beside it:
  - `RefsIssued`: every ticket tag and permission names an id its table has already handed out.
    Every operation keeps it.
  - `RefsIntact`: every such reference names a row that exists. Every operation keeps it except
    the ultimate delete from the trashcan (see Findings).

  This module also holds one function per branch of the state machine and one function per
  operation, each with the result codes the C code returns.
- `ticket_database.dfy` (module `ManageSqlTickets`): class `TicketDatabase`. Its fields are the
  two tables, the tag and permission rows, the two id sequences behind `sql_last_insert_id`, and
  whether a transaction is open. Its invariant is `Valid` and `RefsIssued` of those fields.
  Its methods perform the C statements in the same order: INSERT, then re-point the references,
  then DELETE, or UPDATE the name, then UPDATE the comment. Each method is proved to end in the
  state and code that its `Tickets` function gives.
- `ticket_properties.dfy` (module `TicketProperties`): properties of sequences of calls.
  These are idempotent soft delete, the soft-delete/restore round trip, finality of ultimate
  delete, name conflicts on create and on restore, and the counterexample for the finding below.

The external collaborators are inputs to the model:

- `acl_user_may` is a `permitted` flag.
- `find_resource_with_permission` and `find_trash` are a `Lookup` answer: an SQL error, a miss,
  or the id of a row of that table with the requested uuid. A miss may also stand for a row the
  user may not act on.
- `resource_with_name_exists` is a `nameTaken` flag.
- `make_uuid` is a uuid input, required to be unused.
- `m_now` is a `now` input.
- The current user is a `user` id.

The name check inside `restore_ticket` is SQL written in this file (lines 296-301), so it is
modelled exactly: an active ticket owned by the user has the trashcan ticket's name.

The doc comments list result codes that the code never returns. The model follows the code:

- `modify_ticket` returns 9 for "not found" and 11 for "empty name" (lines 482 and 492), not the
  2 and 3 of its comment (lines 451-452).
- `delete_ticket` never returns 1 or 3.
- `restore_ticket` never returns 1, and returns -1 only on a lookup error.
- `create_ticket` never returns 2 or -1.

`delete_ticket`, `create_ticket` and `modify_ticket` each open and end their own transaction.
`restore_ticket` runs inside its caller's transaction, and when no trashcan ticket is found it
returns 2 without ending it (line 333). `RestoreTicket` states exactly that.

## Model

| member | source | states |
|---|---|---|
| `Tickets.TicketInUse` | src/manage_sql_tickets.c:136-140 | `ticket_in_use`: always false, so no active ticket counts as in use. |
| `Tickets.TrashTicketInUse` | src/manage_sql_tickets.c:149-153 | `trash_ticket_in_use`: always false, so no trashcan ticket counts as in use. |
| `Tickets.TicketWritable` | src/manage_sql_tickets.c:162-166 | `ticket_writable`: always true. |
| `Tickets.TrashTicketWritable` | src/manage_sql_tickets.c:175-179 | `trash_ticket_writable`: true exactly when `TrashTicketInUse` is false. |
| `Tickets.OwnedNameExists` | src/manage_sql_tickets.c:296-301 | The `count(*)` guard of `restore_ticket`: holds exactly when some active ticket owned by the user has the given name. |
| `TicketProperties.TicketsNeverInUse` | src/manage_sql_tickets.c:136-179 | No ticket in either table is ever in use, and every ticket in either table is writable. |
| `Links.SetLocations` | src/manage_sql_tickets.c:256-259 | Every reference of the given type to the old id in the opposite location now refers to the new id in the target location. Every other reference is unchanged, and no reference to the old place remains. |
| `Links.SetOrphans` | src/manage_sql_tickets.c:263 | Every permission that referred to the ticket at that location becomes an orphan. The others are unchanged and none refers to it any more. |
| `Links.RemoveResource` | src/manage_sql_tickets.c:264 | The tags kept are exactly the old tags that do not refer to the ticket at that location. Nothing is removed when no tag refers to it. |
| `Links.RemoveResourceCounts` | src/manage_sql_tickets.c:264 | Every tag that refers to the ticket at that location is removed, however often it occurs. Every other tag is kept exactly as many times as it occurred. |
| `Tickets.MoveToTrash` | src/manage_sql_tickets.c:236-267 | Soft delete: the row leaves `tickets` and is copied with every column into `tickets_trash` under an id not used there before. Tags and permissions are re-pointed from (old id, table) to (new id, trash). The invariant (no ticket in both tables), issued references and reference integrity are preserved. |
| `Tickets.PurgeTable` | src/manage_sql_tickets.c:261-267 | Ultimate delete from the table: the row is gone and the trashcan is unchanged. The ticket's permissions become orphans and its tags are removed. No row of either table holds its uuid. Issued references and reference integrity are preserved. |
| `Tickets.PurgeTrash` | src/manage_sql_tickets.c:229-233 | Ultimate delete from the trashcan as written: the trashcan row and its trash-location tags are removed. Permissions and the active table are unchanged, and no row holds the uuid any more. Issued references are preserved, and the tags stay intact when they were. |
| `Tickets.PurgeTrashIntended` | src/manage_sql_tickets.c:229-233 | Corrected trashcan purge: as `PurgeTrash`, and the permissions are also orphaned. No tag or permission is left referring to the purged row. Issued references and reference integrity are preserved. |
| `Tickets.MoveToTable` | src/manage_sql_tickets.c:307-330 | Restore: the row leaves `tickets_trash` and is copied with every column into `tickets` under a fresh id. References are re-pointed from (old id, trash) to (new id, table). The invariant, issued references and reference integrity are preserved. |
| `Tickets.Edited` | src/manage_sql_tickets.c:485-522 | The name and the comment are each replaced only when supplied. The modification time is stamped when either is supplied. Uuid, owner, payload and creation time are kept. |
| `Tickets.Delete` | src/manage_sql_tickets.c:190-271 | Codes are in {0, 2, 99, -1}: 99 exactly when not permitted, -1 exactly on a lookup error, 2 exactly when neither lookup finds the ticket. Any non-zero code leaves every table unchanged. Soft delete of a trashcan ticket changes nothing. Otherwise the result is the branch's move or purge. The invariant and issued references hold after. |
| `Tickets.Restore` | src/manage_sql_tickets.c:283-334 | Codes are in {0, 2, 3, -1}: -1 exactly on a lookup error, 2 exactly when not in the trashcan, 3 exactly when the user owns an active ticket of the same name. Failure changes nothing. Success is the move back to the table. Issued references are preserved. |
| `Tickets.Create` | src/manage_sql_tickets.c:346-396 | Codes are in {0, 1, 99}: 99 exactly when not permitted, 1 exactly when the name exists. Either failure changes nothing. Success adds exactly one active row under the table sequence's next id, which was unused: the given name, the user as owner, comment "" when none is given, default payload, both timestamps now. Issued references and reference integrity are preserved. |
| `Tickets.Modify` | src/manage_sql_tickets.c:454-527 | Codes are in {0, 1, 9, 11, 99, -1}, each exactly under its own condition, checked in the code's order. Failure changes nothing. Success changes only that ticket's row, as `Edited` says; every other row and reference is untouched. Issued references and reference integrity are preserved. |
| `ManageSqlTickets.TicketDatabase.InsertIntoTrash` | src/manage_sql_tickets.c:240-254 | The row is inserted under the trashcan sequence's next id, which is returned and advanced. |
| `ManageSqlTickets.TicketDatabase.InsertIntoTickets` | src/manage_sql_tickets.c:376-386 | The row is inserted under the table sequence's next id, which is returned and advanced. |
| `ManageSqlTickets.TicketDatabase.DeleteTicket` | src/manage_sql_tickets.c:190-271 | Step-by-step delete ending in the code and tables of `Tickets.Delete`. The invariant is kept and the transaction is closed on every path. |
| `ManageSqlTickets.TicketDatabase.SoftDeleteRow` | src/manage_sql_tickets.c:236-266 | The soft-delete statements run in order (INSERT into the trashcan, re-point permissions and tags, DELETE), and leave exactly the tables of `Tickets.MoveToTrash`. |
| `ManageSqlTickets.TicketDatabase.PurgeRow` | src/manage_sql_tickets.c:261-266 | Orphaning the permissions, removing the tags and then the DELETE leave exactly the tables of `Tickets.PurgeTable`. |
| `ManageSqlTickets.TicketDatabase.PurgeTrashRow` | src/manage_sql_tickets.c:229-231 | Removing the trashcan tags and then the DELETE from `tickets_trash` leave exactly the tables of `Tickets.PurgeTrash`. |
| `ManageSqlTickets.TicketDatabase.RestoreTicket` | src/manage_sql_tickets.c:283-334 | Step-by-step restore ending in the code and tables of `Tickets.Restore`. The invariant is kept, and the transaction stays open exactly when the code is 2. |
| `ManageSqlTickets.TicketDatabase.CreateTicket` | src/manage_sql_tickets.c:346-396 | Step-by-step create ending in the code, new id and tables of `Tickets.Create`. The transaction is closed. |
| `ManageSqlTickets.TicketDatabase.ModifyTicket` | src/manage_sql_tickets.c:454-527 | An UPDATE of the name, then of the comment, ending in the code and tables of `Tickets.Modify`. The transaction is closed. |
| `TicketProperties.SoftDeleteIsIdempotent` | src/manage_sql_tickets.c:222-227 | A second soft delete of a soft-deleted ticket returns 0 and changes nothing, whatever the active-table lookup answers short of an error, and the trashcan lookup finds the row. |
| `TicketProperties.SoftDeleteThenRestore` | src/manage_sql_tickets.c:236-330 | From any state where every reference is issued, which every operation keeps, and where the user owns no other active ticket of that name, soft delete followed by restore gives back the row with every column equal, under a new active id. The trashcan is as before, and exactly the ticket's tags and permissions now refer to the new id. |
| `TicketProperties.UltimateDeleteIsFinal` | src/manage_sql_tickets.c:261-267 | After ultimate delete of an active ticket, no row holds its uuid and no tag or permission refers to it. Its permissions remain as orphans. |
| `TicketProperties.TrashedNamesDoNotBlockCreate` | src/manage_sql_tickets.c:363-367 | With an owner-scoped name check, a second create of the same name fails with 1 and changes nothing. After the first ticket is soft-deleted, the name can be created again. |
| `TicketProperties.RestoreBlockedByNamesake` | src/manage_sql_tickets.c:296-305 | Create, soft delete, then create of the same name: restoring the first ticket returns 3 and changes nothing. |
| `TicketProperties.PurgeTrashLeavesDanglingPermission` | src/manage_sql_tickets.c:229-233 | A concrete trashcan ticket with one permission: ultimate delete returns 0, removes the row and keeps the permission, which now refers to a missing row. The permission still names an issued id. |

## Left out

- `ticket_count`, `init_ticket_iterator` and `ticket_iterator_host` (lines 81-127): they only pass column lists to the generic counting and iterator code, which is not part of this model.
- `copy_ticket` (lines 409-428): a single call to `copy_resource`, which is not part of this model, so copy and its independence property are not modelled.
- `ticket_uuid` (lines 437-442): a single SQL lookup.
- SQL quoting and text formatting: names and comments are plain strings.
- Transactions: begin/commit/rollback are modelled only as an open/closed flag. Every failure path returns before any change, so rollback has nothing to undo. Isolation and concurrency are not modelled.
- Failures of the INSERT, UPDATE and DELETE statements themselves are not modelled; only the lookups' SQL errors are.
- The internals of `acl_user_may`, `find_resource_with_permission`, `find_trash` and `resource_with_name_exists` are inputs to the model. So are `make_uuid` (assumed to give an unused uuid) and `m_now`.
- `TrashedNamesDoNotBlockCreate`: holds only under the assumption that `resource_with_name_exists` checks the user's own active tickets. Its internals are not part of this model.
- The tag and permission rows are each one sequence. Their own split into active and trash tables is not modelled.
- The owner of a new ticket is the given user id; the lookup of that id from the user's uuid is left out.
- The columns that create_ticket's INSERT omits take their schema defaults. The schema is not part of this model, so they are taken as NULL.

## Findings

| source | as written | input that shows it | evidently intended | confidence | as-written member | corrected member |
|---|---|---|---|---|---|---|
| src/manage_sql_tickets.c:229-233 | Ultimate delete of a trashcan ticket removes its tags but never orphans its permissions. | A trashcan ticket with id 1 and one permission referring to (ticket 1, trash), deleted with `ultimate` = 1. The permission is left referring to a row that no longer exists. | Orphan the permissions at LOCATION_TRASH, as the active-table branch does at line 263, so that no reference points at a vanished row. | medium, not executed | `TicketProperties.PurgeTrashLeavesDanglingPermission` | `Tickets.PurgeTrashIntended` |

The class follows the code as written, so `DeleteTicket` uses `PurgeTrash`. `PurgeTrashIntended` is the corrected definition, and reference integrity is proved for it and for every other transition. The class invariant therefore holds only `RefsIssued`, which the code as written keeps, and the round trip `SoftDeleteThenRestore` needs nothing more.
