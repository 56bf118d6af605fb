/**
 The device driver and the host heap, as far as the allocator sees them.  Calls may fail for
 reasons of their own; unmapping what is mapped and releasing a live handle succeed.
 */
module AllocDevice {
  import opened AllocPool

  /** A mapping cannot be used before access to it is granted. */
  datatype Mapping = Mapping(size: nat, handle: nat, accessible: bool)

  /** The mappings after access to a range was granted. */
  function Grant(mapped: map<nat, Mapping>, base: nat, size: nat): (granted: map<nat, Mapping>)
    ensures granted.Keys == mapped.Keys
  {
    map x | x in mapped :: if base <= x < base + size then mapped[x].(accessible := true) else mapped[x]
  }

  /** Two address ranges have no address in common. */
  predicate Separate(a: nat, sizeA: nat, b: nat, sizeB: nat) {
    a + sizeA <= b || b + sizeB <= a
  }

  /** A range that no reservation touches. */
  predicate Unreserved(reserved: map<nat, nat>, address: nat, size: nat) {
    address !in reserved && forall b :: b in reserved ==> Separate(address, size, b, reserved[b])
  }

  class Device {
    const granularity: nat
    var reserved: map<nat, nat>
    /** Live handles and the size of the memory behind each. */
    var handles: map<nat, nat>
    var mapped: map<nat, Mapping>
    /** Handle cells on the host heap: address and stored handle. */
    var cells: map<nat, nat>

    constructor (granularity: nat)
      requires granularity > 0
      ensures this.granularity == granularity
      ensures reserved == map[] && handles == map[] && mapped == map[] && cells == map[]
    {
      this.granularity := granularity;
      reserved, handles, mapped, cells := map[], map[], map[], map[];
    }

    method CuMemAddressReserve(size: nat) returns (err: nat, address: nat)
      modifies this`reserved
      ensures err == 0 ==>
        Unreserved(old(reserved), address, size) && reserved == old(reserved)[address := size]
      ensures err != 0 ==> reserved == old(reserved)
    {
      SomethingUnreserved(reserved, size);
      address :| Unreserved(reserved, address, size);
      if * {
        err := 2;
      } else {
        err := 0;
        reserved := reserved[address := size];
      }
    }

    method CuMemAddressFree(address: nat, size: nat) returns (err: nat)
      modifies this`reserved
      ensures err == 0 <==> address in old(reserved) && old(reserved)[address] == size
      ensures reserved == if err == 0 then old(reserved) - {address} else old(reserved)
    {
      err := 1;
      if address in reserved && reserved[address] == size {
        err := 0;
        reserved := reserved - {address};
      }
    }

    method CuMemCreate(cell: nat, size: nat) returns (err: nat)
      requires cell in cells
      modifies this`handles, this`cells
      ensures err == 0 ==>
        && cell in cells && cells == old(cells)[cell := cells[cell]]
        && cells[cell] !in old(handles) && handles == old(handles)[cells[cell] := size]
      ensures err != 0 ==> handles == old(handles) && cells == old(cells)
    {
      ghost var bound := Above(handles.Keys);
      assert bound !in handles.Keys;
      var handle: nat :| handle !in handles.Keys;
      if * {
        err := 2;
      } else {
        err := 0;
        handles := handles[handle := size];
        cells := cells[cell := handle];
      }
    }

    method CuMemMap(address: nat, size: nat, handle: nat) returns (err: nat)
      modifies this`mapped
      ensures err == 0 ==> address !in old(mapped) && mapped == old(mapped)[address := Mapping(size, handle, false)]
      ensures err != 0 ==> mapped == old(mapped)
    {
      err := 1;
      if address !in mapped && handle in handles && size <= handles[handle] {
        if * {
          err := 0;
          mapped := mapped[address := Mapping(size, handle, false)];
        }
      }
    }

    method CuMemUnmap(address: nat, size: nat) returns (err: nat)
      modifies this`mapped
      ensures err == 0 <==> address in old(mapped) && old(mapped)[address].size == size
      ensures mapped == if err == 0 then old(mapped) - {address} else old(mapped)
    {
      err := 1;
      if address in mapped && mapped[address].size == size {
        err := 0;
        mapped := mapped - {address};
      }
    }

    method CuMemRelease(handle: nat) returns (err: nat)
      modifies this`handles
      ensures err == 0 <==> handle in old(handles)
      ensures handles == old(handles) - {handle}
    {
      err := if handle in handles then 0 else 1;
      handles := handles - {handle};
    }

    method CuMemSetAccess(address: nat, size: nat) returns (err: nat)
      modifies this`mapped
      ensures mapped == if err == 0 then Grant(old(mapped), address, size) else old(mapped)
    {
      if * {
        err := 0;
        mapped := Grant(mapped, address, size);
      } else {
        err := 3;
      }
    }

    /** `malloc` of one handle cell. */
    method AllocateCell() returns (ok: bool, cell: nat)
      modifies this`cells
      ensures ok ==> cell !in old(cells) && cells.Keys == old(cells).Keys + {cell}
      ensures ok ==> forall c :: c in old(cells) ==> cells[c] == old(cells)[c]
      ensures !ok ==> cells == old(cells)
    {
      ghost var bound := Above(cells.Keys);
      assert bound !in cells.Keys;
      cell :| cell !in cells.Keys;
      ok := *;
      if ok {
        cells := cells[cell := 0];
      }
    }

    /** `free`: only a cell that is allocated may be freed. */
    method FreeCell(cell: nat)
      requires cell in cells
      modifies this`cells
      ensures cells == old(cells) - {cell}
    {
      cells := cells - {cell};
    }
  }

  /** The address space is never used up. */
  lemma SomethingUnreserved(reserved: map<nat, nat>, size: nat)
    ensures exists address: nat :: Unreserved(reserved, address, size)
  {
    var ends := set b | b in reserved :: b + reserved[b];
    var top := Above(ends);
    forall b | b in reserved ensures b + reserved[b] < top { assert b + reserved[b] in ends; }
    assert Unreserved(reserved, top, size);
  }
}
