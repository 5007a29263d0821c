/** The idempotency table and its guarded reservation, one call at a time. */
module Idempotency {
  import opened Prelude

  datatype Row = Row(tenant: nat, hash: string, status: Status, uri: Option<string>, alignment: Option<string>, expiresAt: int)

  datatype Reservation =
    | New(row: Row)
    | Replay(row: Row)
    | Conflict(existing: Row)
    | IntegrityError          // surfaces to the caller as is

  /** The primary key, unlike the tenant-scoped reads, also sees expired rows and other tenants' rows. */
  predicate Visible(rows: map<nat, Row>, tenant: nat, now: int, id: nat) {
    id in rows && rows[id].tenant == tenant && rows[id].expiresAt > now
  }

  predicate Leftover(rows: map<nat, Row>, tenant: nat, now: int, id: nat) {
    id in rows && !Visible(rows, tenant, now, id)
  }

  /** Replay or conflict, by body hash. */
  function Judge(row: Row, hash: string): Reservation {
    if row.hash == hash then Replay(row) else Conflict(row)
  }

  function Outcome(rows: map<nat, Row>, mid: map<nat, Row>, late: map<nat, Row>, last: map<nat, Row>,
                   tenant: nat, now: int, id: nat, hash: string, ttl: int): Reservation {
    var made := Row(tenant, hash, Processing, None, None, now + ttl);
    if Visible(rows, tenant, now, id) then Judge(rows[id], hash)
    else if id !in mid then New(made)
    else if Visible(late, tenant, now, id) then Judge(late[id], hash)
    else if id !in last then New(made)
    else IntegrityError
  }

  function TableAfter(rows: map<nat, Row>, mid: map<nat, Row>, late: map<nat, Row>, last: map<nat, Row>,
                      tenant: nat, now: int, id: nat, hash: string, ttl: int): map<nat, Row> {
    var made := Row(tenant, hash, Processing, None, None, now + ttl);
    if Visible(rows, tenant, now, id) then rows
    else if id !in mid then mid[id := made]
    else if Visible(late, tenant, now, id) then late
    else if id !in last then last[id := made]
    else last
  }

  /**
    Undisturbed, a call fails with the raw integrity error exactly when the key
    is taken by a row the caller cannot see: expired, or another tenant's.
  */
  lemma RawErrorIffLeftover(rows: map<nat, Row>, tenant: nat, now: int, id: nat, hash: string, ttl: int)
    ensures Outcome(rows, rows, rows, rows, tenant, now, id, hash, ttl).IntegrityError? <==> Leftover(rows, tenant, now, id)
  {
  }

  /**
    Under interference that never leaves a hidden row under the key, a raw error
    means the key was taken, freed again and taken again during the call.
  */
  lemma RawErrorNeedsThreeChanges(rows: map<nat, Row>, mid: map<nat, Row>, late: map<nat, Row>, last: map<nat, Row>,
                                  tenant: nat, now: int, id: nat, hash: string, ttl: int)
    requires !Leftover(rows, tenant, now, id) && !Leftover(mid, tenant, now, id)
    requires !Leftover(late, tenant, now, id) && !Leftover(last, tenant, now, id)
    ensures Outcome(rows, mid, late, last, tenant, now, id, hash, ttl).IntegrityError?
       <==> id !in rows && id in mid && id !in late && id in last
  {
  }

  class Table {
    var rows: map<nat, Row>

    constructor ()
      ensures rows == map[]
    {
      rows := map[];
    }

    method Get(tenant: nat, now: int, id: nat) returns (r: Option<Row>)
      ensures r.Some? <==> Visible(rows, tenant, now, id)
      ensures r.Some? ==> id in rows && r.value == rows[id] && r.value.tenant == tenant && r.value.expiresAt > now
      ensures r.None? ==> id !in rows || rows[id].tenant != tenant || rows[id].expiresAt <= now
    {
      if id in rows && rows[id].tenant == tenant && rows[id].expiresAt > now {
        r := Some(rows[id]);
      } else {
        r := None;
      }
    }

    /** Insert; the unique key rejects an id that is already present in any form. */
    method Reserve(tenant: nat, now: int, id: nat, hash: string, ttl: int) returns (inserted: Option<Row>)
      modifies this
      ensures inserted.None? <==> id in old(rows)
      ensures inserted.None? ==> rows == old(rows)
      ensures inserted.Some? ==>
                inserted.value == Row(tenant, hash, Processing, None, None, now + ttl) && rows == old(rows)[id := inserted.value]
    {
      if id in rows {
        return None;
      }
      var row := Row(tenant, hash, Processing, None, None, now + ttl);
      rows := rows[id := row];
      inserted := Some(row);
    }

    /**
      `reserve_or_get`. Other sessions may commit between its statements: `mid`,
      `late` and `last` are the table as they leave it before the insert, before
      the re-read and before the second insert.
    */
    method ReserveOrGet(tenant: nat, now: int, id: nat, hash: string, ttl: int,
                        mid: map<nat, Row>, late: map<nat, Row>, last: map<nat, Row>)
      returns (r: Reservation)
      modifies this
      // New: the key was free when the row was inserted, and nothing else changed.
      ensures r.New? ==>
                && r.row == Row(tenant, hash, Processing, None, None, now + ttl)
                && exists before :: before in {mid, last} && id !in before && rows == before[id := r.row]
      // Replay and Conflict: the caller was shown the visible row, told apart by the body, and nothing was written.
      ensures r.Replay? ==>
                && id in rows && r.row == rows[id] && r.row.hash == hash
                && r.row.tenant == tenant && r.row.expiresAt > now
      ensures r.Conflict? ==>
                && id in rows && r.existing == rows[id] && r.existing.hash != hash
                && r.existing.tenant == tenant && r.existing.expiresAt > now
      ensures r.Replay? || r.Conflict? ==> rows == old(rows) || rows == late
      // A raw error: the key was taken at both inserts, invisibly so at both reads; nothing was written.
      ensures r.IntegrityError? ==>
                && rows == last && id in mid && id in last
                && !Visible(old(rows), tenant, now, id) && !Visible(late, tenant, now, id)
      // A row that is visible when the call starts is never replaced.
      ensures id in old(rows) && old(rows)[id].tenant == tenant && old(rows)[id].expiresAt > now ==>
                (r.Replay? || r.Conflict?) && rows == old(rows)
      ensures r == Outcome(old(rows), mid, late, last, tenant, now, id, hash, ttl)
      ensures rows == TableAfter(old(rows), mid, late, last, tenant, now, id, hash, ttl)
    {
      var existing := Get(tenant, now, id);
      if existing.Some? {
        return if existing.value.hash != hash then Conflict(existing.value) else Replay(existing.value);
      }
      rows := mid;
      var row := Reserve(tenant, now, id, hash, ttl);
      if row.Some? {
        return New(row.value);
      }
      rows := late;
      var winner := Get(tenant, now, id);
      if winner.None? {
        rows := last;
        var again := Reserve(tenant, now, id, hash, ttl);
        return if again.Some? then New(again.value) else IntegrityError;
      }
      r := if winner.value.hash != hash then Conflict(winner.value) else Replay(winner.value);
    }

    method Delete(tenant: nat, id: nat) returns (removed: nat)
      modifies this
      ensures removed == if id in old(rows) && old(rows)[id].tenant == tenant then 1 else 0
      ensures rows == if removed == 1 then old(rows) - {id} else old(rows)
    {
      if id in rows && rows[id].tenant == tenant {
        rows := rows - {id};
        removed := 1;
      } else {
        removed := 0;
      }
    }

    /** `alignment` is the sentence alignment as stored, None when the worker computed none. */
    method Complete(tenant: nat, now: int, id: nat, uri: Option<string>, alignment: Option<string>)
      modifies this
      ensures !Visible(old(rows), tenant, now, id) ==> rows == old(rows)
      ensures Visible(old(rows), tenant, now, id) ==>
                rows == old(rows)[id := old(rows)[id].(
                  status := Status.Complete,
                  uri := if uri.Some? then uri else old(rows)[id].uri,
                  alignment := if alignment.Some? then alignment else old(rows)[id].alignment)]
    {
      var found := Get(tenant, now, id);
      if found.Some? {
        var row := found.value.(status := Status.Complete);
        if uri.Some? {
          row := row.(uri := uri);
        }
        if alignment.Some? {
          row := row.(alignment := alignment);
        }
        rows := rows[id := row];
      }
    }

    method Fail(tenant: nat, now: int, id: nat)
      modifies this
      ensures !Visible(old(rows), tenant, now, id) ==> rows == old(rows)
      ensures Visible(old(rows), tenant, now, id) ==> rows == old(rows)[id := old(rows)[id].(status := Failed)]
    {
      var row := Get(tenant, now, id);
      if row.Some? {
        rows := rows[id := row.value.(status := Failed)];
      }
    }

    /** The second request with the key is answered from the first one's row: the same body replays it, another conflicts. */
    method ReserveThenAgain(tenant: nat, now: int, later: int, id: nat, hash: string, hash': string, ttl: int)
      returns (first: Reservation, second: Reservation)
      requires id !in rows && later < now + ttl
      modifies this
      ensures first == New(Row(tenant, hash, Processing, None, None, now + ttl))
      ensures second == if hash' == hash then Replay(first.row) else Conflict(first.row)
      ensures rows == old(rows)[id := first.row]
    {
      first := ReserveOrGet(tenant, now, id, hash, ttl, rows, rows, rows);
      second := ReserveOrGet(tenant, later, id, hash', ttl, rows, rows, rows);
    }

    /** A submission that fails frees the key: the same key and body can be reserved again. */
    method ReserveFailReserve(tenant: nat, now: int, id: nat, hash: string, ttl: int) returns (r: Reservation)
      requires id !in rows
      modifies this
      ensures r == New(Row(tenant, hash, Processing, None, None, now + ttl)) && rows == old(rows)[id := r.row]
    {
      var first := ReserveOrGet(tenant, now, id, hash, ttl, rows, rows, rows);
      var removed := Delete(tenant, id);
      assert rows == old(rows);
      r := ReserveOrGet(tenant, now, id, hash, ttl, rows, rows, rows);
    }
  }
}
