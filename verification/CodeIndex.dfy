/** The linear-sweep instruction index: one strictly sorted sequence searched by address. */
module CodeIndexes {
  import opened Prelude

  datatype Flow =
    | Next
    | UnconditionalBranch
    | ConditionalBranch
    | Call
    | IndirectBranch
    | IndirectCall
    | Return
    | Interrupt
    | Exception
    | XbeginXabortXend

  /** A decoded instruction, reduced to what the analyses read from it. */
  datatype Instr = Instr(ip: u64, len: nat, flow: Flow, target: u64, isInt3: bool, hasAvImmediate: bool)
  {
    function NextIp(): u64 {
      SaturatingAdd(ip, len)
    }
  }

  /** Result of searching the sorted addresses: an exact hit or the insertion point. */
  datatype Lookup = Found(index: nat) | Missing(index: nat)

  datatype CodeIndex = CodeIndex(instrs: seq<Instr>)
  {
    /** Element `i` ends at or before the address of element `j`. */
    ghost predicate Before(i: nat, j: nat)
      requires i < |instrs| && j < |instrs|
    {
      instrs[i].ip + instrs[i].len <= instrs[j].ip
    }

    /** Element `i` is not empty and ends inside the address space. */
    ghost predicate Sized(i: nat)
      requires i < |instrs|
    {
      instrs[i].len >= 1 && instrs[i].ip + instrs[i].len < U64_LIMIT
    }

    /** Instructions are non-empty, end inside the address space, ascend and do not overlap. */
    ghost predicate WellFormed() {
      && (forall i: nat :: i < |instrs| ==> Sized(i))
      && (forall i: nat, j: nat :: i < j < |instrs| ==> Before(i, j))
    }

    lemma Ascending(i: nat, j: nat)
      requires WellFormed() && i < j < |instrs|
      ensures instrs[i].len >= 1 && instrs[i].ip + instrs[i].len <= instrs[j].ip
    {
      assert Before(i, j) && Sized(i);
    }

    /** `binary_search_by_key` over `instrs[lo..hi]`. */
    function Search(va: u64, lo: nat, hi: nat): (r: Lookup)
      requires WellFormed()
      requires lo <= hi <= |instrs|
      requires forall i :: 0 <= i < lo ==> instrs[i].ip < va
      requires forall i :: hi <= i < |instrs| ==> va < instrs[i].ip
      ensures r.Found? ==> r.index < |instrs| && instrs[r.index].ip == va
      ensures r.Missing? ==> r.index <= |instrs|
      ensures r.Missing? ==> forall i :: 0 <= i < r.index ==> instrs[i].ip < va
      ensures r.Missing? ==> forall i :: r.index <= i < |instrs| ==> va < instrs[i].ip
      decreases hi - lo
    {
      if lo == hi then Missing(lo)
      else
        var mid := (lo + hi) / 2;
        if instrs[mid].ip == va then Found(mid)
        else if instrs[mid].ip < va then
          assert forall i :: 0 <= i < mid ==> instrs[i].ip < va by {
            forall i | 0 <= i < mid ensures instrs[i].ip < va { Ascending(i, mid); }
          }
          Search(va, mid + 1, hi)
        else
          assert forall i :: mid < i < |instrs| ==> va < instrs[i].ip by {
            forall i | mid < i < |instrs| ensures va < instrs[i].ip { Ascending(mid, i); }
          }
          Search(va, lo, mid)
    }

    function IdxForVa(va: u64): (r: Option<nat>)
      requires WellFormed()
      ensures r.Some? ==> r.value < |instrs| && instrs[r.value].ip == va
      ensures r.None? ==> forall i :: 0 <= i < |instrs| ==> instrs[i].ip != va
    {
      match Search(va, 0, |instrs|)
      case Found(i) => Some(i)
      case Missing(_) => None
    }

    function AtVa(va: u64): (r: Option<Instr>)
      requires WellFormed()
      ensures r.Some? ==> r.value in instrs && r.value.ip == va
      ensures r.Some? ==> r.value.len >= 1 && r.value.NextIp() == va + r.value.len
      ensures r.None? ==> forall d :: d in instrs ==> d.ip != va
    {
      var idx := IdxForVa(va);
      assert idx.Some? ==> Sized(idx.value);
      if idx.None? then None else Some(instrs[idx.value])
    }

    /** Up to `count` instructions from the last one at or below `va`. */
    function Window(va: u64, count: nat): (r: seq<Instr>)
      requires WellFormed()
      ensures |r| <= count
    {
      var from := match Search(va, 0, |instrs|)
        case Found(i) => i
        case Missing(i) => if i == 0 then 0 else i - 1;
      var end := if from + count < |instrs| then from + count else |instrs|;
      instrs[from..end]
    }

    /** Exact lookup inverts indexing. */
    lemma IndexedLookup(i: nat)
      requires WellFormed() && i < |instrs|
      ensures Search(instrs[i].ip, 0, |instrs|) == Found(i)
      ensures IdxForVa(instrs[i].ip) == Some(i)
      ensures AtVa(instrs[i].ip) == Some(instrs[i])
    {
      var r := Search(instrs[i].ip, 0, |instrs|);
      if r.Found? && r.index < i {
        Ascending(r.index, i);
      } else if r.Found? && i < r.index {
        Ascending(i, r.index);
      }
    }

    /** The instruction at a fallthrough address is the next element. */
    lemma NextIsAdjacent(i: nat, j: nat)
      requires WellFormed() && i < |instrs| && j < |instrs|
      requires instrs[j].ip == instrs[i].NextIp()
      ensures j == i + 1
    {
      assert Sized(i);
      if j < i {
        Ascending(j, i);
      } else if j == i {
        assert false;
      } else if i + 1 < j {
        Ascending(i, i + 1);
        Ascending(i + 1, j);
      }
    }
  }
}
