/** The handlers as they are written: methods that update the table of
    communicators and the fields of an allocation context in place, each proved
    to compute the corresponding local transition of the protocol model. */
module CidHandlers {
  import opened CidLocal

  /** ompi_mpi_communicators of one process. */
  class CommunicatorTable {
    var entries: Table

    /** opal_pointer_array_test_and_set_item. */
    method TestAndSet(i: nat, e: Entry) returns (ok: bool)
      modifies this
      ensures ok <==> i !in old(entries)
      ensures entries == if ok then old(entries)[i := e] else old(entries)
    {
      ok := i !in entries;
      if ok {
        entries := entries[i := e];
      }
    }

    /** opal_pointer_array_set_item with a pointer. */
    method SetItem(i: nat, e: Entry)
      modifies this
      ensures entries == old(entries)[i := e]
    {
      entries := entries[i := e];
    }

    /** opal_pointer_array_set_item with NULL. */
    method Clear(i: nat)
      modifies this
      ensures entries == old(entries) - {i}
    {
      entries := entries - {i};
    }
  }

  class CidContext {
    const role: Role
    var stage: Stage
    var start: nat
    var nextLocal: nat
    var nextCid: nat
    var flag: bool
    var iter: nat

    ghost function Value(): Context
      reads this
    {
      Context(stage, start, nextLocal, nextCid, flag, iter)
    }

    constructor (role: Role)
      ensures this.role == role && Value() == IDLE
    {
      this.role := role;
      stage, start, nextLocal, nextCid, flag, iter := Idle, 0, 0, 0, false, 0;
    }

    ghost function View(table: CommunicatorTable): Local
      reads this, table
    {
      Local(table.entries, Value())
    }

    /** ompi_comm_nextcid_nb. */
    method Nextcid(lowestFree: nat, ghost table: CommunicatorTable)
      modifies this
      ensures View(table) == Begin(old(View(table)), lowestFree)
    {
      stage, start, nextLocal, nextCid, flag, iter := Getting, lowestFree, 0, 0, false, 0;
    }

    /** The search for a free id: try each slot from `start` on. */
    method ReserveFirstFree(table: CommunicatorTable) returns (n: nat)
      modifies table
      ensures n == FirstFree(old(table.entries), start, role.maxId)
      ensures table.entries == if n < role.maxId then old(table.entries)[n := Reserved(role.comm)] else old(table.entries)
    {
      n := role.maxId;
      var i := start;
      while i < role.maxId
        invariant start <= i && n == role.maxId && table.entries == old(table.entries)
        invariant FirstFree(table.entries, start, role.maxId) == FirstFree(table.entries, i, role.maxId)
      {
        var ok := table.TestAndSet(i, Reserved(role.comm));
        if ok {
          return i;
        }
        i := i + 1;
      }
    }

    /** ompi_comm_allreduce_getnextcid; the caller starts the MAX allreduce on `nextLocal`. */
    method AllreduceGetnextcid(table: CommunicatorTable)
      modifies this, table
      ensures View(table) == GetNext(role, old(View(table)))
    {
      if role.participates {
        nextLocal := ReserveFirstFree(table);
        stage := if nextLocal == role.maxId then Failed else Checking;
      } else {
        nextLocal := 0;
        stage := Checking;
      }
    }

    /** ompi_comm_checkcid with the result of the MAX allreduce; the caller starts
        the MIN allreduce on `flag`. */
    method Checkcid(table: CommunicatorTable, candidate: nat)
      modifies this, table
      ensures View(table) == CidLocal.CheckCid(role, old(View(table)), candidate)
    {
      nextCid := candidate;
      if !role.participates {
        flag := true;
      } else {
        flag := nextCid == nextLocal;
        if !flag {
          table.Clear(nextLocal);
          flag := table.TestAndSet(nextCid, Reserved(role.comm));
        }
      }
      iter := iter + 1;
      stage := Deciding;
    }

    /** ompi_comm_nextcid_check_flag with the result of the MIN allreduce. */
    method NextcidCheckFlag(table: CommunicatorTable, rflag: int)
      modifies this, table
      ensures View(table) == CidLocal.CheckFlag(role, old(View(table)), rflag == 1)
    {
      if rflag == 1 {
        if !role.participates {
          nextLocal := ReserveFirstFree(table);
          nextCid := nextLocal;
        }
        table.SetItem(nextCid, Owner(role.alloc));
        stage := Done;
        return;
      }
      if role.participates && flag {
        table.Clear(nextCid);
        start := nextCid + 1;
      }
      iter := iter + 1;
      stage := Getting;
    }

    /** ompi_comm_destruct, the part that returns the id. */
    method Destruct(table: CommunicatorTable)
      modifies this, table
      ensures View(table) == Release(old(View(table)))
    {
      table.Clear(nextCid);
      stage := Freed;
    }
  }
}
