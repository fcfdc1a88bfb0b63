/**
 The tables of one thread: for each address, the label id under which the thread last read it, and last wrote it.
 */
module ThreadTables {

  predicate InTable(table: map<nat, nat>, addr: nat, labelId: nat) {
    addr in table && table[addr] == labelId
  }

  class ThreadData {
    var labelId: nat
    var dupReadTable: map<nat, nat>
    var dupWriteTable: map<nat, nat>

    constructor ()
      ensures labelId == 0 && dupReadTable == map[] && dupWriteTable == map[]
    {
      labelId, dupReadTable, dupWriteTable := 0, map[], map[];
    }

    method IncrementLabelId()
      modifies this`labelId
      ensures labelId == old(labelId) + 1
    {
      labelId := labelId + 1;
    }

    method IsDupRead(memAddr: nat, id: nat) returns (dup: bool)
      modifies this`dupReadTable
      ensures dup <==> InTable(old(dupReadTable), memAddr, id)
      ensures dupReadTable == old(dupReadTable)[memAddr := id]
    {
      if memAddr in dupReadTable && dupReadTable[memAddr] == id {
        return true;
      } else {
        dupReadTable := dupReadTable[memAddr := id];
        return false;
      }
    }

    method IsDupWrite(memAddr: nat, id: nat) returns (dup: bool)
      modifies this`dupWriteTable
      ensures dup <==> InTable(old(dupWriteTable), memAddr, id)
      ensures dupWriteTable == old(dupWriteTable)[memAddr := id]
    {
      if memAddr in dupWriteTable && dupWriteTable[memAddr] == id {
        return true;
      } else {
        dupWriteTable := dupWriteTable[memAddr := id];
        return false;
      }
    }

    function Table(isWrite: bool): map<nat, nat>
      reads this
    {
      if isWrite then dupWriteTable else dupReadTable
    }

    method IsDupMemAccess(memAddr: nat, isWrite: bool) returns (dup: bool)
      modifies this`dupReadTable, this`dupWriteTable
      ensures dup <==> InTable(old(Table(isWrite)), memAddr, labelId)
      ensures Table(isWrite) == old(Table(isWrite))[memAddr := labelId] && Table(!isWrite) == old(Table(!isWrite))
    {
      if isWrite {
        dup := IsDupWrite(memAddr, labelId);
      } else {
        dup := IsDupRead(memAddr, labelId);
      }
    }
  }
}
