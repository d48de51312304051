/** The durable entity-zone session table (src/storage/entity_zone_session_repository.py).
    A row's id is its position: `uuid4` gives every new row a fresh id. */
module ZoneSessions {
  import opened Options
  import opened Sql

  datatype Pair = Pair(entity: nat, zone: nat)

  datatype Row = Row(pair: Pair, isOpen: bool, enteredAt: int, lastSeen: int, exitedAt: Option<int>,
                     occupancyAfterEnter: nat, occupancyAfterExit: Option<nat>)

  type Rows = seq<Row>

  predicate IsOpen(rows: Rows, id: nat) {
    id < |rows| && rows[id].isOpen
  }

  /** get_open_session. */
  function GetOpen(rows: Rows, pair: Pair): (r: Option<nat>)
    ensures r.Some? ==> IsOpen(rows, r.value) && rows[r.value].pair == pair
    ensures r.None? ==> forall i: nat | IsOpen(rows, i) :: rows[i].pair != pair
  {
    if rows == [] then None
    else
      var n := |rows| - 1;
      if rows[n].isOpen && rows[n].pair == pair then Some(n)
      else
        assert forall i: nat | IsOpen(rows, i) && i < n :: IsOpen(rows[..n], i) && rows[i] == rows[..n][i];
        GetOpen(rows[..n], pair)
  }

  /** count_open_for_zone. */
  function CountOpen(rows: Rows, zone: nat): nat {
    if rows == [] then 0
    else
      var n := |rows| - 1;
      CountOpen(rows[..n], zone) + if rows[n].isOpen && rows[n].pair.zone == zone then 1 else 0
  }

  function Opened(pair: Pair, at: int, occupancy: nat): Row {
    Row(pair, true, at, at, None, occupancy, None)
  }

  /** close_session on an open row; a closed row is returned unchanged. */
  function Closed(row: Row, at: int, occupancy: nat): Row {
    if row.isOpen then
      row.(isOpen := false, exitedAt := Some(at), lastSeen := at, occupancyAfterExit := Some(occupancy))
    else row
  }

  /** touch_session. */
  function Touch(rows: Rows, id: nat, at: int): Rows {
    if IsOpen(rows, id) then rows[id := rows[id].(lastSeen := at)] else rows
  }

  /** Rows matched by `status = open AND last_seen_at < cutoff`. */
  ghost function StaleIds(rows: Rows, cutoff: int): set<nat> {
    set i: nat | i < |rows| && rows[i].isOpen && rows[i].lastSeen < cutoff
  }

  ghost function OpenIdsOf(rows: Rows, entity: nat): set<nat> {
    set i: nat | i < |rows| && rows[i].isOpen && rows[i].pair.entity == entity
  }

  function LastSeen(rows: Rows): nat -> int {
    (i: nat) => if i < |rows| then rows[i].lastSeen else 0
  }

  class SessionTable {
    var rows: Rows

    constructor ()
      ensures rows == []
    {
      rows := [];
    }

    method OpenSession(pair: Pair, at: int, occupancy: nat) returns (id: nat)
      modifies this
      ensures id == |old(rows)| && rows == old(rows) + [Opened(pair, at, occupancy)]
    {
      id := |rows|;
      rows := rows + [Opened(pair, at, occupancy)];
    }

    /** LookupError for an unknown id is the `false` outcome. */
    method CloseSession(id: nat, at: int, occupancy: nat) returns (found: bool)
      modifies this
      ensures found == (id < |old(rows)|)
      ensures rows == if found then old(rows)[id := Closed(old(rows)[id], at, occupancy)] else old(rows)
    {
      if id >= |rows| { return false; }
      rows := rows[id := Closed(rows[id], at, occupancy)];
      return true;
    }

    method TouchSession(id: nat, at: int)
      modifies this
      ensures rows == Touch(old(rows), id, at)
    {
      if id < |rows| && rows[id].isOpen {
        rows := rows[id := rows[id].(lastSeen := at)];
      }
    }

    method GetOpenSession(pair: Pair) returns (id: Option<nat>)
      ensures id == GetOpen(rows, pair)
    {
      id := GetOpen(rows, pair);
    }

    /** list_open_for_entity; the statement has no ORDER BY. */
    method ListOpenForEntity(entity: nat) returns (ids: seq<nat>)
      ensures multiset(ids) == multiset(OpenIdsOf(rows, entity))
    {
      ids := [];
      ghost var found: set<nat> := {};
      for i := 0 to |rows|
        invariant found == set k: nat | k < i && k in OpenIdsOf(rows, entity)
        invariant multiset(ids) == multiset(found)
      {
        if rows[i].isOpen && rows[i].pair.entity == entity {
          ids, found := ids + [i], found + {i};
        }
      }
      assert found == OpenIdsOf(rows, entity);
    }

    method ListStaleOpen(cutoff: int, limit: nat) returns (ids: seq<nat>)
      ensures IsSelection(ids, StaleIds(rows, cutoff), LastSeen(rows), limit)
    {
      var stale: seq<nat> := [];
      ghost var found: set<nat> := {};
      for i := 0 to |rows|
        invariant found == set k: nat | k < i && k in StaleIds(rows, cutoff)
        invariant multiset(stale) == multiset(found)
      {
        if rows[i].isOpen && rows[i].lastSeen < cutoff {
          stale, found := stale + [i], found + {i};
        }
      }
      assert found == StaleIds(rows, cutoff);
      ids := OrderByLimit(stale, LastSeen(rows), limit);
      OrderByLimitSelects(stale, found, LastSeen(rows), limit);
    }
  }

  // ---- what the counts mean ----

  /** At most one open row for a pair, as the table's partial unique index demands. */
  ghost predicate UniqueOpen(rows: Rows) {
    forall i: nat, j: nat | IsOpen(rows, i) && IsOpen(rows, j) && i != j :: rows[i].pair != rows[j].pair
  }

  lemma {:induction false} CountReplace(rows: Rows, id: nat, row: Row, zone: nat)
    requires id < |rows|
    ensures CountOpen(rows[id := row], zone)
         == CountOpen(rows, zone) - (if rows[id].isOpen && rows[id].pair.zone == zone then 1 else 0)
                                  + (if row.isOpen && row.pair.zone == zone then 1 else 0)
  {
    var n := |rows| - 1;
    if id < n {
      CountReplace(rows[..n], id, row, zone);
      assert rows[id := row][..n] == rows[..n][id := row];
    } else {
      assert rows[id := row][..n] == rows[..n];
    }
  }

  predicate InZone(rows: Rows, id: nat, zone: nat) {
    IsOpen(rows, id) && rows[id].pair.zone == zone
  }

  ghost function EntitiesInside(rows: Rows, zone: nat): set<nat> {
    set i: nat | i < |rows| && InZone(rows, i, zone) :: rows[i].pair.entity
  }

  lemma EntitiesStep(init: Rows, last: Row, zone: nat)
    ensures EntitiesInside(init + [last], zone)
         == EntitiesInside(init, zone) + if last.isOpen && last.pair.zone == zone then {last.pair.entity} else {}
  {
    var rows := init + [last];
    assert forall i: nat | i < |init| :: InZone(rows, i, zone) <==> InZone(init, i, zone);
    assert InZone(rows, |init|, zone) <==> last.isOpen && last.pair.zone == zone;
    forall e | e in EntitiesInside(init, zone) ensures e in EntitiesInside(rows, zone) {
      var i: nat :| i < |init| && InZone(init, i, zone) && init[i].pair.entity == e;
      assert InZone(rows, i, zone) && rows[i].pair.entity == e;
    }
  }

  lemma NotYetInside(init: Rows, last: Row)
    requires UniqueOpen(init + [last]) && last.isOpen
    ensures UniqueOpen(init)
    ensures last.pair.entity !in EntitiesInside(init, last.pair.zone)
  {
    var rows := init + [last];
    assert IsOpen(rows, |init|);
    forall i: nat | IsOpen(init, i) ensures IsOpen(rows, i) && init[i].pair != last.pair {
      assert IsOpen(rows, i);
    }
  }

  /** The count of open rows is the number of distinct entities inside the zone. */
  lemma {:induction false} CountIsEntities(rows: Rows, zone: nat)
    requires UniqueOpen(rows)
    ensures CountOpen(rows, zone) == |EntitiesInside(rows, zone)|
  {
    if rows != [] {
      var init, last := rows[..|rows|-1], rows[|rows|-1];
      assert rows == init + [last];
      assert forall i: nat | IsOpen(init, i) :: IsOpen(rows, i);
      if last.isOpen { NotYetInside(init, last); }
      hide EntitiesInside;
      CountIsEntities(init, zone);
      EntitiesStep(init, last, zone);
    }
  }
}
