// mmap and munmap as the allocator relies on them.
module AddressSpaces {
  import opened Geometry
  import opened RootState

  datatype Mapping = Mapping(start: nat, size: nat)

  /** The address space of the process. Callers know only the contracts: a new
      mapping is page aligned and overlaps nothing that is mapped at that time. */
  class AddressSpace {
    ghost var mapped: set<Mapping>
    var next: nat

    ghost predicate Valid()
      reads this
    {
      next > 0 && next % PAGE_SIZE == 0 && forall m :: m in mapped ==> m.start + m.size <= next
    }

    constructor ()
      ensures Valid() && mapped == {}
    {
      next, mapped := PAGE_SIZE, {};
    }

    method Mmap(size: nat) returns (p: nat)
      requires Valid()
      modifies this
      ensures Valid() && mapped == old(mapped) + {Mapping(p, size)}
      ensures p > 0 && p % PAGE_SIZE == 0
      ensures forall m :: m in old(mapped) ==> Apart(p, size, m.start, m.size)
    {
      p := next;
      next := next + RoundUpPage(size);
      mapped := mapped + {Mapping(p, size)};
    }

    method Munmap(ghost m: Mapping)
      requires Valid()
      modifies this
      ensures Valid() && mapped == old(mapped) - {m}
    {
      mapped := mapped - {m};
    }
  }

  /** A zone's mapping: its user pages and a guard page on either side. */
  function ZoneMapping(base: nat): Mapping
    requires base >= PAGE_SIZE
  {
    Mapping(base - PAGE_SIZE, ZONE_USER_SIZE + 2 * PAGE_SIZE)
  }
}
