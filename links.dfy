/** Tag and permission rows that refer to a resource by (type, id, location),
    and the bulk updates through which the ticket operations tell the tag
    and permission subsystems that a ticket moved or was destroyed. */
module Links {
  import opened TicketRows

  /** What a tag or permission row refers to: a resource id in one of the
      two tables, or nothing once the resource was destroyed (an orphan). */
  datatype Target = Resource(id: nat, location: Location) | Orphan

  /** One row of the tag resources or of the permissions: the tag or
      permission it belongs to, the resource type, and the resource. */
  datatype Link = Link(holder: nat, kind: string, target: Target)

  predicate RefersTo(l: Link, kind: string, id: nat, location: Location)
  {
    l.kind == kind && l.target == Resource(id, location)
  }

  function Opposite(location: Location): (r: Location)
    ensures r != location
  {
    if location == Table then Trash else Table
  }

  /** tags_set_locations and permissions_set_locations: every row of `kind`
      that refers to `from` in the opposite table is made to refer to `to`
      in `location`; every other row stays as it was. */
  function SetLocations(links: seq<Link>, kind: string, from: nat, to: nat, location: Location): (r: seq<Link>)
    ensures |r| == |links|
    ensures forall i :: 0 <= i < |links| ==>
      r[i] == if RefersTo(links[i], kind, from, Opposite(location))
              then links[i].(target := Resource(to, location))
              else links[i]
    ensures forall i :: 0 <= i < |r| ==> !RefersTo(r[i], kind, from, Opposite(location))
  {
    if links == [] then []
    else
      var l := links[0];
      var moved := if RefersTo(l, kind, from, Opposite(location)) then l.(target := Resource(to, location)) else l;
      [moved] + SetLocations(links[1..], kind, from, to, location)
  }

  /** permissions_set_orphans: every row of `kind` that refers to `id` in
      `location` loses its resource and becomes an orphan; the others stay. */
  function SetOrphans(links: seq<Link>, kind: string, id: nat, location: Location): (r: seq<Link>)
    ensures |r| == |links|
    ensures forall i :: 0 <= i < |links| ==>
      r[i] == if RefersTo(links[i], kind, id, location) then links[i].(target := Orphan) else links[i]
    ensures forall i :: 0 <= i < |r| ==> !RefersTo(r[i], kind, id, location)
  {
    if links == [] then []
    else
      var l := links[0];
      var orphaned := if RefersTo(l, kind, id, location) then l.(target := Orphan) else l;
      [orphaned] + SetOrphans(links[1..], kind, id, location)
  }

  /** tags_remove_resource: the rows of `kind` that refer to `id` in
      `location` are deleted; every other row is kept, in its order. */
  function RemoveResource(links: seq<Link>, kind: string, id: nat, location: Location): (r: seq<Link>)
    ensures forall l :: l in r <==> l in links && !RefersTo(l, kind, id, location)
    ensures |r| <= |links|
    ensures (forall l :: l in links ==> !RefersTo(l, kind, id, location)) ==> r == links
  {
    if links == [] then []
    else if RefersTo(links[0], kind, id, location) then RemoveResource(links[1..], kind, id, location)
    else [links[0]] + RemoveResource(links[1..], kind, id, location)
  }

  /** tags_remove_resource deletes every row that refers to the resource,
      however many there are, and keeps each other row as many times as it
      occurred. */
  lemma {:induction false} RemoveResourceCounts(links: seq<Link>, kind: string, id: nat, location: Location)
    ensures var r := RemoveResource(links, kind, id, location);
      forall l :: multiset(r)[l] == if RefersTo(l, kind, id, location) then 0 else multiset(links)[l]
  {
    if links != [] {
      RemoveResourceCounts(links[1..], kind, id, location);
      assert links == [links[0]] + links[1..];
    }
  }
}
