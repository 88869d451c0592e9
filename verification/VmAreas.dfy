// Memory areas in the checkpoint image: heavy areas page by page, light areas by
// the name of the file they map, and the split of the stack on restore
// (src/tcmi/ckpt/tcmi_ckpt_vm_area.c).

module VmAreas {
  import opened Bytes
  import opened Files
  import opened Image
  import opened FdTable

  const VM_WRITE: nat := 2
  const VM_GROWSDOWN: nat := 0x100
  const HEADER_SIZE: nat := 40
  const U64: nat := 0x1_0000_0000_0000_0000

  predicate Has(flags: nat, bit: nat)
    requires bit > 0
  {
    flags / bit % 2 == 1
  }

  /** PROT_READ, PROT_WRITE and PROT_EXEC are the low bits of vm_flags. */
  function Prot(flags: nat): (p: nat) {
    flags % 8
  }

  type Page = p: seq<byte> | |p| == PAGE_SIZE witness Zeros(PAGE_SIZE)

  /**
   * A memory area of the process: start and size in pages, flags, the mapped file if
   * any, and the content of each page, None where there is no page to write.
   */
  datatype Area = Area(start: nat, flags: nat, pgoff: nat, path: Option<seq<byte>>, pages: seq<Option<Page>>)

  predicate AreaOk(a: Area) {
    && |a.pages| > 0 && (a.start + |a.pages|) * PAGE_SIZE < U64
    && a.flags < U64 && a.pgoff < U64
  }

  datatype Kind = Light | Heavy

  /** tcmi_ckpt_vm_area_write: light only on request, when not writable and file-backed. */
  function KindOf(a: Area, heavy: bool): (k: Kind) {
    if !heavy && !Has(a.flags, VM_WRITE) && a.path.Some? then Light else Heavy
  }

  /** The page that d_path gets has room for the name of a light area. */
  predicate NameFits(a: Area, heavy: bool) {
    KindOf(a, heavy).Light? ==> |a.path.value| + 1 <= PAGE_SIZE
  }

  /** struct tcmi_ckpt_vm_area_hdr, packed; enumerators take four bytes. */
  datatype Hdr = Hdr(start: nat, end: nat, flags: nat, pgoff: nat, kind: nat, pathSize: nat)

  function EncodeHdr(h: Hdr): (s: seq<byte>)
    ensures |s| == HEADER_SIZE
  {
    Le(h.start, 8) + Le(h.end, 8) + Le(h.flags, 8) + Le(h.pgoff, 8) + Le(h.kind, 4) + Le(h.pathSize, 4)
  }

  function DecodeHdr(s: seq<byte>): (h: Hdr)
    requires |s| == HEADER_SIZE
  {
    Hdr(FromLe(s[..8]), FromLe(s[8..16]), FromLe(s[16..24]), FromLe(s[24..32]), FromLe(s[32..36]), FromLe(s[36..]))
  }

  lemma HdrRoundTrip(h: Hdr)
    requires h.start < U64 && h.end < U64 && h.flags < U64 && h.pgoff < U64
    requires h.kind < 0x1_0000_0000 && h.pathSize < 0x1_0000_0000
    ensures DecodeHdr(EncodeHdr(h)) == h
  {
    hide FromLe, Le;
    Pow256Values();
    LeRoundTrip(h.start, 8);
    LeRoundTrip(h.end, 8);
    LeRoundTrip(h.flags, 8);
    LeRoundTrip(h.pgoff, 8);
    LeRoundTrip(h.kind, 4);
    LeRoundTrip(h.pathSize, 4);
    HdrSlices(h);
  }

  lemma HdrSlices(h: Hdr)
    ensures var s := EncodeHdr(h);
            && s[..8] == Le(h.start, 8) && s[8..16] == Le(h.end, 8) && s[16..24] == Le(h.flags, 8)
            && s[24..32] == Le(h.pgoff, 8) && s[32..36] == Le(h.kind, 4) && s[36..] == Le(h.pathSize, 4)
  {
    hide Le;
  }

  function HdrOf(a: Area, heavy: bool): (h: Hdr) {
    var light := KindOf(a, heavy).Light?;
    Hdr(a.start * PAGE_SIZE, (a.start + |a.pages|) * PAGE_SIZE, a.flags, a.pgoff,
        if light then 0 else 1, if light then |a.path.value| + 1 else 0)
  }

  /** Pages without content read as zeros. */
  function Content(p: Option<Page>): (s: Page) {
    if p.Some? then p.value else Zeros(PAGE_SIZE)
  }

  function PageBytes(pages: seq<Option<Page>>): (s: seq<byte>)
    ensures |s| == |pages| * PAGE_SIZE
  {
    if pages == [] then [] else PageBytes(pages[..|pages| - 1]) + Content(pages[|pages| - 1])
  }

  /** What an area looks like in an image when its record starts at the given offset. */
  function EncodeArea(at: nat, a: Area, heavy: bool): (s: seq<byte>) {
    match KindOf(a, heavy)
    case Light => EncodeHdr(HdrOf(a, heavy)) + (a.path.value + [0])
    case Heavy => EncodeHdr(HdrOf(a, heavy)) + (Zeros(Gap(at + HEADER_SIZE)) + PageBytes(a.pages))
  }

  function EncodeAreas(at: nat, areas: seq<Area>, heavy: bool): (s: seq<byte>)
    decreases areas
  {
    if areas == [] then []
    else
      var first := EncodeArea(at, areas[0], heavy);
      first + EncodeAreas(at + |first|, areas[1..], heavy)
  }

  // ----- writing -----------------------------------------------------------------------

  /** tcmi_ckpt_vm_area_write: nothing is written when the name of a light area does not fit. */
  method WriteArea(img: File, a: Area, heavy: bool) returns (ok: bool)
    requires |img.data| <= img.pos && AreaOk(a)
    modifies img
    ensures |img.data| <= img.pos && (ok <==> NameFits(a, heavy))
    ensures img.Full() == if ok then old(img.Full()) + EncodeArea(old(img.pos), a, heavy) else old(img.Full())
  {
    hide EncodeHdr;
    ghost var before := img.Full();
    if !NameFits(a, heavy) {
      return false;
    }
    var h := HdrOf(a, heavy);
    img.Write(EncodeHdr(h));
    if KindOf(a, heavy).Light? {
      img.Write(a.path.value + [0]);
      Assoc(before, EncodeHdr(h), a.path.value + [0]);
    } else {
      ghost var gap := Zeros(Gap(img.pos));
      img.PageAlign();
      WritePages(img, a.pages);
      Assoc(before + EncodeHdr(h), gap, PageBytes(a.pages));
      Assoc(before, EncodeHdr(h), gap + PageBytes(a.pages));
    }
    ok := true;
  }

  /** The page loop: a page that is there is written, one that is not is skipped. */
  method WritePages(img: File, pages: seq<Option<Page>>)
    requires |img.data| <= img.pos
    modifies img
    ensures |img.data| <= img.pos && img.Full() == old(img.Full()) + PageBytes(pages)
  {
    ghost var before := img.Full();
    var i := 0;
    while i < |pages|
      invariant 0 <= i <= |pages| && |img.data| <= img.pos
      invariant img.Full() == before + PageBytes(pages[..i])
    {
      assert pages[..i + 1][..i] == pages[..i];
      Assoc(before, PageBytes(pages[..i]), Content(pages[i]));
      if pages[i].None? {
        img.SeekForward(PAGE_SIZE);
      } else {
        img.Write(pages[i].value);
      }
      i := i + 1;
    }
    assert pages[..|pages|] == pages;
  }

  /** tcmi_ckpt_write_vmas: all areas, up to the first one that cannot be written. */
  method WriteAreas(img: File, areas: seq<Area>, heavy: bool) returns (ok: bool, ghost stop: nat)
    requires |img.data| <= img.pos && (forall a :: a in areas ==> AreaOk(a))
    modifies img
    ensures |img.data| <= img.pos && stop <= |areas| && (ok <==> stop == |areas|)
    ensures (forall a :: a in areas[..stop] ==> NameFits(a, heavy)) && (!ok ==> !NameFits(areas[stop], heavy))
    ensures img.Full() == old(img.Full()) + EncodeAreas(old(img.pos), areas[..stop], heavy)
  {
    hide EncodeArea, NameFits, AreaOk, EncodeAreas, Zeros;
    ghost var before := img.Full();
    NoAreas(|before|, heavy);
    assert before + [] == before;
    var i := 0;
    while i < |areas|
      invariant 0 <= i <= |areas| && |img.data| <= img.pos
      invariant forall a :: a in areas[..i] ==> NameFits(a, heavy)
      invariant img.Full() == before + EncodeAreas(|before|, areas[..i], heavy)
    {
      ghost var done := EncodeAreas(|before|, areas[..i], heavy);
      assert areas[i] in areas;
      ok := WriteArea(img, areas[i], heavy);
      if !ok {
        return false, i;
      }
      assert areas[..i + 1] == areas[..i] + [areas[i]];
      EncodeAreasSnoc(|before|, areas[..i], areas[i], heavy);
      Assoc(before, done, EncodeArea(|before| + |done|, areas[i], heavy));
      i := i + 1;
    }
    ok, stop := true, |areas|;
  }

  lemma NoAreas(at: nat, heavy: bool)
    ensures EncodeAreas(at, [], heavy) == []
  {
  }

  lemma {:induction false} EncodeAreasSnoc(at: nat, areas: seq<Area>, a: Area, heavy: bool)
    ensures EncodeAreas(at, areas + [a], heavy)
         == EncodeAreas(at, areas, heavy) + EncodeArea(at + |EncodeAreas(at, areas, heavy)|, a, heavy)
    decreases areas
  {
    hide EncodeArea;
    if areas == [] {
      assert [] + [a] == [a] && [a][1..] == [];
    } else {
      var first := EncodeArea(at, areas[0], heavy);
      assert (areas + [a])[1..] == areas[1..] + [a];
      EncodeAreasSnoc(at + |first|, areas[1..], a, heavy);
      var rest := EncodeAreas(at + |first|, areas[1..], heavy);
      Assoc(first, rest, EncodeArea(at + |first| + |rest|, a, heavy));
    }
  }

  // ----- restoring ---------------------------------------------------------------------

  /** What a page of the restored process shows. */
  datatype Mapped =
    | DataPage(content: seq<byte>, prot: nat, growsDown: bool)
    | FilePage(path: seq<byte>, index: nat, prot: nat)

  /** The numbers of n pages from start on. */
  function PageSet(start: nat, n: nat): (s: set<nat>)
    ensures forall p :: p in s <==> start <= p < start + n
  {
    if n == 0 then {} else PageSet(start, n - 1) + {start + n - 1}
  }

  /** What restoring an area must add to the address space, by page number. */
  function Shown(a: Area, heavy: bool): (m: map<nat, Mapped>) {
    match KindOf(a, heavy)
    case Light =>
      ShownLight(a.start, |a.pages|, a.path.value, a.pgoff, Prot(a.flags))
    case Heavy => ShownHeavy(a)
  }

  /** n pages of a file from page pgoff on. */
  function ShownLight(start: nat, n: nat, path: seq<byte>, pgoff: nat, prot: nat): (m: map<nat, Mapped>) {
    map p | p in PageSet(start, n) :: FilePage(path, pgoff + (p - start), prot)
  }

  function ShownHeavy(a: Area): (m: map<nat, Mapped>) {
    map p | p in PageSet(a.start, |a.pages|) ::
      DataPage(Content(a.pages[p - a.start]), Prot(a.flags), Has(a.flags, VM_GROWSDOWN) && p == a.start)
  }

  /** Page i of a run of pages that starts at pos. */
  function PageAt(data: seq<byte>, pos: nat, i: nat): (s: seq<byte>)
    requires pos + (i + 1) * PAGE_SIZE <= |data|
    ensures |s| == PAGE_SIZE
  {
    data[pos + i * PAGE_SIZE..pos + (i + 1) * PAGE_SIZE]
  }

  /** n pages of the image from pos on, mapped privately. */
  function Run(data: seq<byte>, pos: nat, start: nat, n: nat, prot: nat): (m: map<nat, Mapped>)
    requires pos + n * PAGE_SIZE <= |data|
  {
    map p | p in PageSet(start, n) :: DataPage(PageAt(data, pos, p - start), prot, false)
  }

  lemma {:induction false} PageOf(pages: seq<Option<Page>>, i: nat)
    requires i < |pages|
    ensures PageAt(PageBytes(pages), 0, i) == Content(pages[i])
    decreases |pages|
  {
    var n := |pages| - 1;
    if i < n {
      PageOf(pages[..n], i);
      assert PageAt(PageBytes(pages), 0, i) == PageAt(PageBytes(pages[..n]), 0, i);
    }
  }

  lemma Subslice(data: seq<byte>, pos: nat, len: nat, lo: nat, hi: nat)
    requires lo <= hi <= len && pos + len <= |data|
    ensures data[pos..pos + len][lo..hi] == data[pos + lo..pos + hi]
  {
    var a, b := data[pos..pos + len][lo..hi], data[pos + lo..pos + hi];
    assert |a| == |b|;
    forall i | 0 <= i < |a|
      ensures a[i] == b[i]
    {
      assert a[i] == data[pos..pos + len][lo + i];
    }
  }

  /** The pages of an area, read back from wherever they lie in the image. */
  lemma PageOfImage(data: seq<byte>, pos: nat, pages: seq<Option<Page>>, i: nat)
    requires i < |pages| && pos + |pages| * PAGE_SIZE <= |data|
    requires data[pos..pos + |pages| * PAGE_SIZE] == PageBytes(pages)
    ensures pos + (i + 1) * PAGE_SIZE <= |data| && PageAt(data, pos, i) == Content(pages[i])
  {
    hide PageBytes, Content;
    PageOf(pages, i);
    var lo, hi := i * PAGE_SIZE, (i + 1) * PAGE_SIZE;
    assert hi <= |pages| * PAGE_SIZE;
    Subslice(data, pos, |pages| * PAGE_SIZE, lo, hi);
  }

  /** A light area can be restored only where its file can be opened. */
  predicate Reached(a: Area, heavy: bool, node: Node) {
    KindOf(a, heavy).Light? ==> node.opens(a.path.value, 0, 0).Some?
  }

  lemma InPages(start: nat, n: nat)
    ensures start * PAGE_SIZE / PAGE_SIZE == start
    ensures ((start + n) * PAGE_SIZE - start * PAGE_SIZE) / PAGE_SIZE == n
  {
    assert (start + n) * PAGE_SIZE - start * PAGE_SIZE == n * PAGE_SIZE;
  }

  class Space {
    var mem: map<nat, Mapped>

    /**
     * tcmi_ckpt_do_mmap: n pages of the image from its cursor on, which then moves. A
     * mapping can start only at a page boundary of the file.
     */
    method MapImage(img: File, start: nat, n: nat, prot: nat)
      requires img.pos % PAGE_SIZE == 0 && img.pos + n * PAGE_SIZE <= |img.data|
      modifies this, img`pos
      ensures img.pos == old(img.pos) + n * PAGE_SIZE
      ensures mem == old(mem) + Run(img.data, old(img.pos), start, n, prot)
    {
      mem := mem + Run(img.data, img.pos, start, n, prot);
      img.SeekForward(n * PAGE_SIZE);
    }

    /** tcmi_ckpt_vm_area_stack_fixup: the lowest page becomes an anonymous, growing one. */
    method StackFixup(img: File, start: nat, prot: nat) returns (ok: bool)
      modifies this, img`pos
      ensures ok <==> old(img.pos) + PAGE_SIZE <= |img.data|
      ensures ok ==> img.pos == old(img.pos) + PAGE_SIZE
      ensures ok ==> mem == old(mem)[start := DataPage(PageAt(img.data, old(img.pos), 0), prot, true)]
    {
      var page := img.Read(PAGE_SIZE);
      if page.None? {
        return false;
      }
      mem := mem[start := DataPage(page.value, prot, true)];
      ok := true;
    }

    /** tcmi_ckpt_vm_area_read_h. */
    method ReadHeavy(img: File, h: Hdr, ghost a: Area) returns (ok: bool)
      requires AreaOk(a) && h.start == a.start * PAGE_SIZE && h.flags == a.flags
      requires h.end == (a.start + |a.pages|) * PAGE_SIZE
      requires PagesAt(img.data, img.pos + Gap(img.pos), a.pages)
      modifies this, img`pos
      ensures ok && img.pos == old(img.pos + Gap(img.pos)) + |a.pages| * PAGE_SIZE
      ensures mem == old(mem) + ShownHeavy(a)
    {
      hide Has, Prot, Run, ShownHeavy, PageAt, PageBytes, Gap;
      img.PageAlign();
      ghost var at := img.pos;
      ok := false;
      if h.end - h.start < PAGE_SIZE {
        return;
      }
      var start, n := h.start / PAGE_SIZE, (h.end - h.start) / PAGE_SIZE;
      if Has(h.flags, VM_GROWSDOWN) {
        StackWhole(old(mem), img.data, at, a);
        var done := StackFixup(img, start, Prot(h.flags));
        if !done {
          return;
        }
        if n == 1 {
          return true;
        }
        MapImage(img, start + 1, n - 1, Prot(h.flags - VM_GROWSDOWN));
      } else {
        PlainWhole(img.data, at, a);
        MapImage(img, start, n, Prot(h.flags));
      }
      ok := true;
    }

    /** tcmi_ckpt_vm_area_read_l: the file is opened, if it can be, and mapped at the same place. */
    method ReadLight(img: File, node: Node, h: Hdr, ghost a: Area, ghost heavy: bool) returns (ok: bool)
      requires AreaOk(a) && NameFits(a, heavy) && KindOf(a, heavy).Light? && h == HdrOf(a, heavy)
      requires img.pos + h.pathSize <= |img.data| && img.data[img.pos..img.pos + h.pathSize] == a.path.value + [0]
      modifies this, img`pos
      ensures ok <==> Reached(a, heavy, node)
      ensures ok ==> img.pos == old(img.pos) + h.pathSize && mem == old(mem) + Shown(a, heavy)
    {
      hide Prot, Has, ShownLight;
      InPages(a.start, |a.pages|);
      var name := img.Read(h.pathSize);
      if name.None? {
        return false;
      }
      var path := name.value[..h.pathSize - 1];
      assert path == a.path.value;
      if node.opens(path, 0, 0).None? {
        return false;
      }
      var start, n := h.start / PAGE_SIZE, (h.end - h.start) / PAGE_SIZE;
      mem := mem + ShownLight(start, n, path, h.pgoff, Prot(h.flags));
      ok := true;
    }

    /** tcmi_ckpt_vm_area_read, on an image that holds the area at its cursor. */
    method ReadArea(img: File, node: Node, ghost a: Area, ghost heavy: bool, ghost pre: seq<byte>, ghost post: seq<byte>)
      returns (ok: bool)
      requires AreaOk(a) && NameFits(a, heavy) && img.pos == |pre| && img.data == pre + EncodeArea(|pre|, a, heavy) + post
      modifies this, img`pos
      ensures ok <==> Reached(a, heavy, node)
      ensures ok ==> img.pos == |pre| + |EncodeArea(|pre|, a, heavy)| && mem == old(mem) + Shown(a, heavy)
    {
      hide DecodeHdr, EncodeHdr, PageBytes, ShownHeavy;
      AreaParts(img.data, pre, a, heavy, post);
      var bytes := img.Read(HEADER_SIZE);
      if bytes.None? {
        return false;
      }
      var h := DecodeHdr(bytes.value);
      if h.kind == 0 {
        ok := ReadLight(img, node, h, a, heavy);
      } else if h.kind == 1 {
        ok := ReadHeavy(img, h, a);
      } else {
        ok := false;
      }
    }

    /** tcmi_ckpt_read_vmas: as many areas as the header of the checkpoint announces. */
    method ReadAreas(img: File, node: Node, count: nat, ghost areas: seq<Area>, ghost heavy: bool,
                     ghost pre: seq<byte>, ghost post: seq<byte>) returns (ok: bool)
      requires count == |areas| && (forall a :: a in areas ==> AreaOk(a) && NameFits(a, heavy))
      requires img.pos == |pre| && img.data == pre + EncodeAreas(|pre|, areas, heavy) + post
      modifies this, img`pos
      ensures ok <==> forall a :: a in areas ==> Reached(a, heavy, node)
      ensures ok ==> img.pos == |pre| + |EncodeAreas(|pre|, areas, heavy)| && mem == Overlay(old(mem), areas, heavy)
    {
      hide EncodeArea, Shown, Reached, NameFits, AreaOk;
      var i := 0;
      ok := true;
      ghost var done := pre;
      while i < count && ok
        invariant 0 <= i <= count && ok && (forall a :: a in areas[..i] ==> Reached(a, heavy, node))
        invariant img.pos == |done| && img.data == done + EncodeAreas(|done|, areas[i..], heavy) + post
        invariant |pre| + |EncodeAreas(|pre|, areas, heavy)| == |done| + |EncodeAreas(|done|, areas[i..], heavy)|
        invariant Overlay(mem, areas[i..], heavy) == Overlay(old(mem), areas, heavy)
        invariant img.data == old(img.data)
      {
        ghost var first := EncodeArea(|done|, areas[i], heavy);
        ghost var rest := EncodeAreas(|done| + |first|, areas[i + 1..], heavy);
        assert areas[i..][1..] == areas[i + 1..];
        assert done + (first + rest) + post == done + first + (rest + post);
        ok := ReadArea(img, node, areas[i], heavy, done, rest + post);
        if !ok {
          return;
        }
        assert done + first + (rest + post) == (done + first) + rest + post;
        done := done + first;
        i := i + 1;
      }
    }
  }

  /** MAP_FIXED: later areas replace what earlier ones put in the same place. */
  function Overlay(mem: map<nat, Mapped>, areas: seq<Area>, heavy: bool): (m: map<nat, Mapped>)
    decreases areas
  {
    if areas == [] then mem else Overlay(mem + Shown(areas[0], heavy), areas[1..], heavy)
  }

  predicate Covers(a: Area, p: nat) {
    a.start <= p < a.start + |a.pages|
  }

  ghost predicate Disjoint(areas: seq<Area>) {
    forall i, j, p :: 0 <= i < j < |areas| && Covers(areas[i], p) ==> !Covers(areas[j], p)
  }

  lemma {:induction false} OverlayElsewhere(mem: map<nat, Mapped>, areas: seq<Area>, heavy: bool, p: nat)
    requires forall i :: 0 <= i < |areas| ==> !Covers(areas[i], p)
    ensures p in Overlay(mem, areas, heavy) <==> p in mem
    ensures p in mem ==> Overlay(mem, areas, heavy)[p] == mem[p]
    decreases areas
  {
    if areas != [] {
      OverlayElsewhere(mem + Shown(areas[0], heavy), areas[1..], heavy, p);
    }
  }

  /**
   * What page p of area a must show in the restored process: the content it had, or zeros
   * where it had none, whenever everything is to be stored, nothing backs the area or it
   * is writable; the page of the mapped file that it showed otherwise.
   */
  ghost predicate Back(a: Area, heavy: bool, p: nat, m: Mapped)
    requires a.start <= p < a.start + |a.pages|
  {
    if heavy || a.path.None? || a.flags / 2 % 2 == 1 then
      && m.DataPage? && |m.content| == 4096 && m.prot == a.flags % 8
      && (m.growsDown <==> a.flags / 0x100 % 2 == 1 && p == a.start)
      && match a.pages[p - a.start]
         case Some(content) => m.content == content
         case None => forall i :: 0 <= i < 4096 ==> m.content[i] == 0
    else
      m == FilePage(a.path.value, a.pgoff + (p - a.start), a.flags % 8)
  }

  lemma ShownBack(a: Area, heavy: bool, p: nat)
    requires a.start <= p < a.start + |a.pages|
    ensures p in Shown(a, heavy) && Back(a, heavy, p, Shown(a, heavy)[p])
  {
    assert PAGE_SIZE == 4096;
  }

  /**
   * For areas that do not overlap, every page of every area shows what the area held
   * there, and no other page of the address space changes.
   */
  lemma {:induction false} EveryPageRestored(mem: map<nat, Mapped>, areas: seq<Area>, heavy: bool, k: nat, p: nat)
    requires Disjoint(areas) && k < |areas| && areas[k].start <= p < areas[k].start + |areas[k].pages|
    ensures p in Overlay(mem, areas, heavy) && Back(areas[k], heavy, p, Overlay(mem, areas, heavy)[p])
    decreases areas
  {
    hide Shown, Back;
    var first := mem + Shown(areas[0], heavy);
    if k == 0 {
      ShownBack(areas[0], heavy, p);
      OverlayElsewhere(first, areas[1..], heavy, p);
    } else {
      EveryPageRestored(first, areas[1..], heavy, k - 1, p);
    }
  }

  /**
   * The record of an area, byte by byte: its bounds, flags and offset, what kind it is, and
   * behind that the name, or the pages from the next page boundary of the image on.
   */
  lemma AreaLayout(at: nat, a: Area, heavy: bool)
    ensures var s, light := EncodeArea(at, a, heavy), !heavy && a.path.Some? && a.flags / 2 % 2 == 0;
            && |s| >= 40
            && s[..8] == Le(a.start * 4096, 8) && s[8..16] == Le((a.start + |a.pages|) * 4096, 8)
            && s[16..24] == Le(a.flags, 8) && s[24..32] == Le(a.pgoff, 8)
            && s[32..36] == Le(if light then 0 else 1, 4) && s[36..40] == Le(if light then |a.path.value| + 1 else 0, 4)
            && (light ==> s[40..] == a.path.value + [0])
            && (!light ==> |s| == 40 + Gap(at + 40) + |a.pages| * 4096 && s[40 + Gap(at + 40)..] == PageBytes(a.pages))
  {
    hide Le, PageBytes;
    var s, h := EncodeArea(at, a, heavy), EncodeHdr(HdrOf(a, heavy));
    HdrSlices(HdrOf(a, heavy));
    assert s[..8] == h[..8] && s[8..16] == h[8..16] && s[16..24] == h[16..24];
    assert s[24..32] == h[24..32] && s[32..36] == h[32..36] && s[36..40] == h[36..];
  }

  /** Where the parts of an area's record lie in an image. */
  lemma AreaParts(data: seq<byte>, pre: seq<byte>, a: Area, heavy: bool, post: seq<byte>)
    requires AreaOk(a) && NameFits(a, heavy) && data == pre + EncodeArea(|pre|, a, heavy) + post
    ensures |pre| + HEADER_SIZE <= |data|
    ensures DecodeHdr(data[|pre|..|pre| + HEADER_SIZE]) == HdrOf(a, heavy)
    ensures var at := |pre| + HEADER_SIZE;
            match KindOf(a, heavy)
            case Light => at + |a.path.value| + 1 <= |data| && data[at..at + (|a.path.value| + 1)] == a.path.value + [0]
            case Heavy => PagesAt(data, at + Gap(at), a.pages)
  {
    hide EncodeHdr, DecodeHdr, PageBytes, Gap;
    var head, tail := EncodeHdr(HdrOf(a, heavy)), EncodeArea(|pre|, a, heavy)[HEADER_SIZE..];
    Parts(pre, head, tail, post);
    HdrFits(a, heavy);
    HdrRoundTrip(HdrOf(a, heavy));
    if KindOf(a, heavy).Heavy? {
      var gap := Zeros(Gap(|pre| + HEADER_SIZE));
      Parts(pre + head, gap, PageBytes(a.pages), post);
      assert tail == gap + PageBytes(a.pages);
    }
  }

  lemma HdrFits(a: Area, heavy: bool)
    requires AreaOk(a) && NameFits(a, heavy)
    ensures var h := HdrOf(a, heavy);
            h.start < U64 && h.end < U64 && h.flags < U64 && h.pgoff < U64 && h.kind < 0x1_0000_0000 && h.pathSize < 0x1_0000_0000
  {
  }

  lemma Parts(pre: seq<byte>, x: seq<byte>, y: seq<byte>, post: seq<byte>)
    ensures var d := pre + (x + y) + post;
            && d == (pre + x) + y + post
            && d[|pre|..|pre| + |x|] == x
            && d[|pre| + |x|..|pre| + |x| + |y|] == y
  {
  }

  ghost predicate PagesAt(data: seq<byte>, at: nat, pages: seq<Option<Page>>) {
    at + |pages| * PAGE_SIZE <= |data| && data[at..at + |pages| * PAGE_SIZE] == PageBytes(pages)
  }

  /** An area that is no stack comes back as one run. */
  lemma PlainWhole(data: seq<byte>, at: nat, a: Area)
    requires AreaOk(a) && PagesAt(data, at, a.pages) && !Has(a.flags, VM_GROWSDOWN)
    ensures Run(data, at, a.start, |a.pages|, Prot(a.flags)) == ShownHeavy(a)
  {
    hide PageBytes;
    forall i: nat | i < |a.pages|
      ensures PageAt(data, at, i) == Content(a.pages[i])
    {
      PageOfImage(data, at, a.pages, i);
    }
  }

  /** A stack comes back as its first page and a run of the others, if there are others. */
  lemma StackWhole(mem: map<nat, Mapped>, data: seq<byte>, at: nat, a: Area)
    requires AreaOk(a) && PagesAt(data, at, a.pages) && Has(a.flags, VM_GROWSDOWN)
    ensures at + PAGE_SIZE <= |data| && a.flags >= VM_GROWSDOWN
    ensures var first := mem[a.start := DataPage(PageAt(data, at, 0), Prot(a.flags), true)];
            && (|a.pages| == 1 ==> first == mem + ShownHeavy(a))
            && first + Run(data, at + PAGE_SIZE, a.start + 1, |a.pages| - 1, Prot(a.flags - VM_GROWSDOWN)) == mem + ShownHeavy(a)
  {
    hide PageBytes;
    hide Content, ShownHeavy, Run, PageAt;
    PageOfImage(data, at, a.pages, 0);
    ProtKeeps(a.flags);
    TailPages(data, at, a.pages);
    StackTail(data, at, at + PAGE_SIZE, a);
    StackJoin(mem, a.start, DataPage(PageAt(data, at, 0), Prot(a.flags), true),
              Run(data, at + PAGE_SIZE, a.start + 1, |a.pages| - 1, Prot(a.flags - VM_GROWSDOWN)));
    if |a.pages| == 1 {
      EmptyRun(data, at + PAGE_SIZE, a.start + 1, Prot(a.flags - VM_GROWSDOWN));
    }
  }

  lemma EmptyRun(data: seq<byte>, pos: nat, start: nat, prot: nat)
    requires pos <= |data|
    ensures Run(data, pos, start, 0, prot) == map[]
  {
  }

  lemma StackJoin(mem: map<nat, Mapped>, start: nat, first: Mapped, tail: map<nat, Mapped>)
    ensures mem[start := first] + tail == mem + (map[start := first] + tail)
    ensures mem[start := first] + map[] == mem[start := first]
  {
  }

  lemma TailPages(data: seq<byte>, at: nat, pages: seq<Option<Page>>)
    requires |pages| > 0 && PagesAt(data, at, pages)
    ensures PagesAt(data, at + PAGE_SIZE, pages[1..])
  {
    TailBytes(pages);
    Subslice(data, at, |pages| * PAGE_SIZE, PAGE_SIZE, |pages| * PAGE_SIZE);
  }

  lemma {:induction false} TailBytes(pages: seq<Option<Page>>)
    requires |pages| > 0
    ensures PageBytes(pages[1..]) == PageBytes(pages)[PAGE_SIZE..]
    decreases |pages|
  {
    hide Content;
    var n := |pages| - 1;
    if n > 0 {
      TailBytes(pages[..n]);
      assert pages[1..][..n - 1] == pages[..n][1..];
      assert PageBytes(pages)[PAGE_SIZE..] == PageBytes(pages[..n])[PAGE_SIZE..] + Content(pages[n]);
    }
  }

  lemma StackTail(data: seq<byte>, at: nat, from: nat, a: Area)
    requires AreaOk(a) && from == at + PAGE_SIZE <= |data| && PagesAt(data, from, a.pages[1..])
    requires PageAt(data, at, 0) == Content(a.pages[0]) && Has(a.flags, VM_GROWSDOWN)
    ensures a.flags >= VM_GROWSDOWN
    ensures ShownHeavy(a) == map[a.start := DataPage(PageAt(data, at, 0), Prot(a.flags), true)]
                           + Run(data, from, a.start + 1, |a.pages| - 1, Prot(a.flags - VM_GROWSDOWN))
  {
    hide PageAt, Content, PageBytes;
    ProtKeeps(a.flags);
    var m := map[a.start := DataPage(PageAt(data, at, 0), Prot(a.flags), true)]
           + Run(data, from, a.start + 1, |a.pages| - 1, Prot(a.flags - VM_GROWSDOWN));
    forall p | p in ShownHeavy(a)
      ensures p in m && m[p] == ShownHeavy(a)[p]
    {
      if p > a.start {
        PageOfImage(data, from, a.pages[1..], p - a.start - 1);
      }
    }
  }

  lemma ProtKeeps(flags: nat)
    requires Has(flags, VM_GROWSDOWN)
    ensures flags >= VM_GROWSDOWN && Prot(flags - VM_GROWSDOWN) == Prot(flags)
  {
  }
}
