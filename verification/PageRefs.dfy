/** Repairing the page numbers of cited materials before drafts are created
    (backend/internal/api/ai_handlers.go). */
module PageRefs {
  import opened CandidateGate
  import opened Options

  datatype Material = Material(isPdf: bool, pageCount: Option<int>)

  function NormalPage(m: Material, page: int): int {
    if !m.isPdf then 0
    else if m.pageCount.None? || m.pageCount.value < 1 || page < 1 then 1
    else if page > m.pageCount.value then m.pageCount.value
    else page
  }

  /** An asset that is not known counts as one that is no PDF. */
  function MaterialOf(materials: map<string, Material>, id: string): Material {
    if id in materials then materials[id] else Material(false, None)
  }

  function NormalRef(ref: AssetRef, materials: map<string, Material>): AssetRef {
    AssetRef(ref.assetId, NormalPage(MaterialOf(materials, ref.assetId), ref.page))
  }

  function NormalRefs(refs: seq<AssetRef>, materials: map<string, Material>): seq<AssetRef> {
    if refs == [] then []
    else
      var kept, ref := NormalRefs(refs[..|refs| - 1], materials), NormalRef(refs[|refs| - 1], materials);
      if ref in kept then kept else kept + [ref]
  }

  /** The compaction in place over the front of the slice. */
  method NormaliseAIPageRefs(refs: array<AssetRef>, materials: map<string, Material>) returns (n: nat)
    modifies refs
    ensures n <= refs.Length && refs[..n] == NormalRefs(old(refs[..]), materials)
  {
    n := 0;
    ghost var was := refs[..];
    for i := 0 to refs.Length
      invariant n <= i && refs[..n] == NormalRefs(was[..i], materials)
      invariant refs[i..] == was[i..]
    {
      ghost var kept := refs[..n];
      assert was[..i + 1][..i] == was[..i];
      assert refs[i..][0] == was[i..][0];
      var ref := NormalRef(refs[i], materials);
      assert refs[i + 1..] == refs[i..][1..] && was[i + 1..] == was[i..][1..];
      if ref !in refs[..n] {
        refs[n] := ref;
        n := n + 1;
        assert refs[..n] == kept + [ref];
      }
    }
    assert was[..refs.Length] == was;
  }

  /** A page that exists: 0 for an image, 1 to the page count for a PDF whose pages
      were counted, and 1 otherwise. */
  predicate RealPage(m: Material, page: int) {
    if !m.isPdf then page == 0
    else if m.pageCount.None? || m.pageCount.value < 1 then page == 1
    else 1 <= page <= m.pageCount.value
  }

  lemma NormalPageIsReal(m: Material, page: int)
    ensures RealPage(m, NormalPage(m, page))
    ensures RealPage(m, page) <==> NormalPage(m, page) == page
  {
  }

  function Distance(a: int, b: int): int {
    if a < b then b - a else a - b
  }

  /** A page that does not exist becomes the existing one nearest to it: the last page
      for one past the end, the first for one before it. */
  lemma NormalPageIsNearest(m: Material, page: int, other: int)
    requires RealPage(m, other)
    ensures Distance(page, NormalPage(m, page)) <= Distance(page, other)
    ensures other != NormalPage(m, page) ==> Distance(page, NormalPage(m, page)) < Distance(page, other)
  {
  }

  /** Only the page of a reference is repaired, and a material that is not a PDF, or not
      known at all, has no page but 0. */
  lemma OnlyPdfsHavePages(ref: AssetRef, materials: map<string, Material>)
    ensures NormalRef(ref, materials).assetId == ref.assetId
    ensures ref.assetId !in materials || !materials[ref.assetId].isPdf ==> NormalRef(ref, materials).page == 0
    ensures ref.assetId in materials && materials[ref.assetId].isPdf ==>
      NormalRef(ref, materials).page >= 1 && RealPage(materials[ref.assetId], NormalRef(ref, materials).page)
  {
  }

  /** Repairing references one by one: later ones never displace earlier ones. */
  lemma {:induction false} RefsOnlyGrow(refs: seq<AssetRef>, more: seq<AssetRef>, materials: map<string, Material>)
    ensures NormalRefs(refs, materials) <= NormalRefs(refs + more, materials)
    decreases |more|
  {
    if more == [] {
      assert refs + more == refs;
    } else {
      var n := |more| - 1;
      assert (refs + more)[..|refs + more| - 1] == refs + more[..n];
      RefsOnlyGrow(refs, more[..n], materials);
    }
  }

  ghost predicate Repaired(refs: seq<AssetRef>, materials: map<string, Material>) {
    && Distinct(refs)
    && forall i :: 0 <= i < |refs| ==> RealPage(MaterialOf(materials, refs[i].assetId), refs[i].page)
  }

  /** Afterwards every page exists and no reference is repeated, and the materials
      cited are the same ones. */
  lemma {:induction false} RefsAreRepaired(refs: seq<AssetRef>, materials: map<string, Material>)
    ensures Repaired(NormalRefs(refs, materials), materials)
    ensures forall r :: r in refs ==> NormalRef(r, materials) in NormalRefs(refs, materials)
    ensures forall r :: r in NormalRefs(refs, materials) ==> exists o :: o in refs && NormalRef(o, materials) == r
    decreases |refs|
  {
    if refs != [] {
      var init, last := refs[..|refs| - 1], refs[|refs| - 1];
      assert refs == init + [last];
      RefsAreRepaired(init, materials);
      NormalPageIsReal(MaterialOf(materials, last.assetId), last.page);
      assert last in refs;
    }
  }

  /** A repaired list is left alone. */
  lemma {:induction false} RepairedStays(refs: seq<AssetRef>, materials: map<string, Material>)
    requires Repaired(refs, materials)
    ensures NormalRefs(refs, materials) == refs
    decreases |refs|
  {
    if refs != [] {
      var init, last := refs[..|refs| - 1], refs[|refs| - 1];
      assert refs == init + [last];
      RepairedStays(init, materials);
      NormalPageIsReal(MaterialOf(materials, last.assetId), last.page);
      assert last !in init;
    }
  }
}
