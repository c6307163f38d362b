/** The stored lease table: one row per MAC, one row per address, and exactly the
    acknowledgements that still stand. */
module LeaseStore {
  import opened Net

  datatype Row = Row(ip: Addr, hostname: string, expiresAt: int, lastSeen: int)

  type Rows = map<string, Row>

  // PutDHCPLease: clear any other client's row for the address, then upsert.
  function Put(rows: Rows, mac: string, row: Row): Rows {
    (map m | m in rows && (rows[m].ip != row.ip || m == mac) :: rows[m])[mac := row]
  }

  function Delete(rows: Rows, mac: string): Rows {
    rows - {mac}
  }

  function Prune(rows: Rows, now: int): Rows {
    map m | m in rows && rows[m].expiresAt > now :: rows[m]
  }

  ghost predicate OneToOne(rows: Rows) {
    forall m, n :: m in rows && n in rows && rows[m].ip == rows[n].ip ==> m == n
  }

  // The table object. A write that fails leaves it as it was.
  class Table {
    var rows: Rows

    constructor ()
      ensures rows == map[]
    {
      rows := map[];
    }

    method PutDHCPLease(mac: string, row: Row, commits: bool) returns (ok: bool)
      modifies this
      ensures ok == commits
      ensures rows == if ok then Put(old(rows), mac, row) else old(rows)
    {
      var tx := rows;
      tx := map m | m in tx && !(tx[m].ip == row.ip && m != mac) :: tx[m];
      tx := tx[mac := row];
      if commits {
        rows := tx;
      }
      ok := commits;
    }

    method DeleteDHCPLease(mac: string, commits: bool) returns (ok: bool)
      modifies this
      ensures ok == commits
      ensures rows == if ok then Delete(old(rows), mac) else old(rows)
    {
      if commits {
        rows := rows - {mac};
      }
      ok := commits;
    }

    method DeleteExpiredDHCPLeases(now: int) returns (n: nat)
      modifies this
      ensures rows == Prune(old(rows), now)
      ensures n == |set m | m in old(rows) && old(rows)[m].expiresAt <= now|
    {
      var gone := set m | m in rows && rows[m].expiresAt <= now;
      rows := rows - gone;
      n := |gone|;
    }
  }

  // ----- the table is a ledger -----

  // The writes that reached the table, oldest first.
  datatype Write = Acked(mac: string, row: Row) | Dropped(mac: string) | Pruned(now: int)

  function Apply(rows: Rows, w: Write): Rows {
    match w
    case Acked(mac, row) => Put(rows, mac, row)
    case Dropped(mac) => Delete(rows, mac)
    case Pruned(now) => Prune(rows, now)
  }

  function After(log: seq<Write>): Rows {
    if log == [] then map[] else Apply(After(log[..|log| - 1]), log[|log| - 1])
  }

  // w undoes an earlier acknowledgement: the client was acknowledged again, its
  // address went to another, it gave the lease up, or the lease ran out.
  predicate Undoes(w: Write, mac: string, row: Row) {
    match w
    case Acked(m, r) => m == mac || r.ip == row.ip
    case Dropped(m) => m == mac
    case Pruned(now) => row.expiresAt <= now
  }

  // The acknowledgement at i was never undone.
  predicate Stands(log: seq<Write>, i: int, mac: string, row: Row) {
    0 <= i < |log| && log[i] == Acked(mac, row) && forall j :: i < j < |log| ==> !Undoes(log[j], mac, row)
  }

  lemma {:induction false} TableStaysOneToOne(log: seq<Write>)
    ensures OneToOne(After(log))
  {
    if log != [] {
      TableStaysOneToOne(log[..|log| - 1]);
    }
  }

  // The table holds a row exactly when some acknowledgement of it still stands.
  lemma {:induction false} TableIsTheLedger(log: seq<Write>, mac: string, row: Row)
    ensures (mac in After(log) && After(log)[mac] == row) <==> exists i :: Stands(log, i, mac, row)
  {
    if log != [] {
      var n := |log| - 1;
      var before, w := log[..n], log[n];
      TableIsTheLedger(before, mac, row);
      if mac in After(log) && After(log)[mac] == row {
        if w == Acked(mac, row) {
          assert Stands(log, n, mac, row);
        } else {
          var i :| Stands(before, i, mac, row);
          assert Stands(log, i, mac, row);
        }
      }
      if exists i :: Stands(log, i, mac, row) {
        var i :| Stands(log, i, mac, row);
        if i < n {
          assert !Undoes(log[n], mac, row);
          assert Stands(before, i, mac, row);
        }
      }
    }
  }
}
