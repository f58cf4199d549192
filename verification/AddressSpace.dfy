/** PE sections and the virtual-address lookups built on them. */
module AddressSpaces {
  import opened Prelude

  datatype Section = Section(vaddr: u32, vsize: u32, rawAddr: u32, rawSize: u32, executable: bool)
  {
    predicate ContainsVa(imageBase: u64, va: u64) {
      var start := imageBase + vaddr;
      start <= va < (if start + vsize < U64_LIMIT then start + vsize else U64_LIMIT - 1)
    }

    /** A section holds the addresses of its virtual size, except the very last one of the address space. */
    lemma ContainsIff(imageBase: u64, va: u64)
      ensures ContainsVa(imageBase, va) <==> 0 <= va - (imageBase + vaddr) < vsize && va != 0xFFFF_FFFF_FFFF_FFFF
    {
    }

    function VaToOffset(imageBase: u64, va: u64): Option<nat> {
      if !ContainsVa(imageBase, va) then None
      else
        var within := va - imageBase - vaddr;
        if within >= rawSize then None else Some(rawAddr + within)
    }
  }

  datatype AddressSpace = AddressSpace(imageBase: u64, sections: seq<Section>)
  {
    /** Section `i` of the list holds `va` and none before it does. */
    predicate FirstAt(list: seq<Section>, i: nat, va: u64)
      requires i < |list|
    {
      list[i].ContainsVa(imageBase, va) && forall j :: 0 <= j < i ==> !list[j].ContainsVa(imageBase, va)
    }

    /** The first section, in table order, whose virtual range holds `va`. */
    function SectionAtVa(va: u64): (r: Option<Section>)
      ensures r.Some? ==> exists i: nat :: i < |sections| && r.value == sections[i] && FirstAt(sections, i, va)
      ensures r.Some? ==> r.value in sections && r.value.ContainsVa(imageBase, va)
      ensures r.None? ==> forall s :: s in sections ==> !s.ContainsVa(imageBase, va)
    {
      FirstContaining(sections, va)
    }

    function FirstContaining(rest: seq<Section>, va: u64): (r: Option<Section>)
      ensures r.Some? ==> exists i: nat :: i < |rest| && r.value == rest[i] && FirstAt(rest, i, va)
      ensures r.None? ==> forall s :: s in rest ==> !s.ContainsVa(imageBase, va)
    {
      if rest == [] then None
      else if rest[0].ContainsVa(imageBase, va) then
        assert FirstAt(rest, 0, va);
        Some(rest[0])
      else
        var r := FirstContaining(rest[1..], va);
        assert r.Some? ==> exists i: nat :: i < |rest| && r.value == rest[i] && FirstAt(rest, i, va) by {
          if r.Some? {
            var i: nat :| i < |rest[1..]| && r.value == rest[1..][i] && FirstAt(rest[1..], i, va);
            assert rest[1..][i] == rest[i + 1] && FirstAt(rest, i + 1, va) by {
              forall j | 0 <= j < i + 1 ensures !rest[j].ContainsVa(imageBase, va) {
                assert j > 0 ==> rest[j] == rest[1..][j - 1];
              }
            }
          }
        }
        r
    }

    predicate IsExecutableVa(va: u64) {
      var s := SectionAtVa(va);
      s.Some? && s.value.executable
    }

    /** File offset of `va`, when the address is backed by initialised bytes. */
    function FileOffset(va: u64): Option<nat> {
      var s := SectionAtVa(va);
      if s.None? then None else s.value.VaToOffset(imageBase, va)
    }

    /**
     * The `len` bytes of the image at `va`: there exactly when a section holds `va` inside its
     * initialised bytes and the image does not end before them.
     */
    function SliceForVa(image: seq<byte>, va: u64, len: nat): (r: Option<seq<byte>>)
      ensures var s := SectionAtVa(va);
        r.Some? <==>
          && s.Some? && va < imageBase + s.value.vaddr + s.value.rawSize
          && s.value.rawAddr + (va - imageBase - s.value.vaddr) + len <= |image|
      ensures r.Some? ==>
        && |r.value| == len
        && var from := SectionAtVa(va).value.rawAddr + (va - imageBase - SectionAtVa(va).value.vaddr);
           forall k :: 0 <= k < len ==> r.value[k] == image[from + k]
    {
      var offset := FileOffset(va);
      if offset.None? || offset.value + len > |image| then None
      else Some(image[offset.value..offset.value + len])
    }
  }
}
