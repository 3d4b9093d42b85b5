/** Signed elements of a video wall (app/compositor_fabric.py:43-182).

    The source hashes a canonical JSON text. A signature is modelled by the hashed content itself, so
    that two signatures are equal exactly when their contents are. */
module Signatures {
  import opened Collections

  /** The global style of a wall that changes the pixels of every cell. */
  datatype Style = Style(chroma: Option<string>, bitDepth: Option<int>, rest: string, forceCpu: bool)

  /** One window of a wall; `look` stands for every field other than position, size, source and visibility. */
  datatype CellCfg = CellCfg(hidden: bool, path: string, x: int, y: int, w: int, h: int, look: string)

  datatype OverlayCfg = OverlayCfg(id: string, kind: string, hidden: bool, x: int, y: int, w: int, h: int, look: string)

  datatype ElemSig =
    | CellSig(path: string, w: int, h: int, look: string, style: Style)
    | OverlaySig(kind: string, w: int, h: int, look: string, chroma: Option<string>, bitDepth: Option<int>)

  /** A signed element placed in a wall or in a region. */
  datatype Elem = Elem(sig: ElemSig, x: int, y: int, w: int, h: int)

  datatype Wall = Wall(key: nat, cells: seq<CellCfg>, overlays: seq<OverlayCfg>,
                       outW: int, outH: int, style: Style, shmOut: string, extra: string)

  predicate VisibleCell(c: CellCfg) {
    !c.hidden && c.path != ""
  }

  predicate VisibleOverlay(o: OverlayCfg) {
    !o.hidden
  }

  function CellElem(c: CellCfg, style: Style): Elem {
    Elem(CellSig(c.path, c.w, c.h, c.look, style), c.x, c.y, c.w, c.h)
  }

  function OverlayElem(o: OverlayCfg, style: Style): Elem {
    Elem(OverlaySig(o.kind, o.w, o.h, o.look, style.chroma, style.bitDepth), o.x, o.y, o.w, o.h)
  }

  function VisibleCells(cells: seq<CellCfg>): seq<CellCfg> {
    if cells == [] then []
    else if VisibleCell(cells[0]) then [cells[0]] + VisibleCells(cells[1..])
    else VisibleCells(cells[1..])
  }

  function VisibleOverlays(overlays: seq<OverlayCfg>): seq<OverlayCfg> {
    if overlays == [] then []
    else if VisibleOverlay(overlays[0]) then [overlays[0]] + VisibleOverlays(overlays[1..])
    else VisibleOverlays(overlays[1..])
  }

  function CellElems(cells: seq<CellCfg>, style: Style): seq<Elem> {
    if cells == [] then [] else [CellElem(cells[0], style)] + CellElems(cells[1..], style)
  }

  function OverlayElems(overlays: seq<OverlayCfg>, style: Style): seq<Elem> {
    if overlays == [] then [] else [OverlayElem(overlays[0], style)] + OverlayElems(overlays[1..], style)
  }

  function Cells(wall: Wall): seq<Elem> {
    CellElems(VisibleCells(wall.cells), wall.style)
  }

  function Overlays(wall: Wall): seq<Elem> {
    OverlayElems(VisibleOverlays(wall.overlays), wall.style)
  }

  function Elements(wall: Wall): seq<Elem> {
    Cells(wall) + Overlays(wall)
  }

  /** Number of visible cells. */
  function VisibleCount(wall: Wall): nat {
    |VisibleCells(wall.cells)|
  }

  lemma {:induction false} CellElemsFacts(cells: seq<CellCfg>, style: Style)
    ensures |CellElems(cells, style)| == |cells|
    ensures forall e :: e in CellElems(cells, style) ==> e.sig.CellSig? && e.sig.style == style && Signed(e)
  {
    if cells != [] {
      CellElemsFacts(cells[1..], style);
    }
  }

  lemma {:induction false} OverlayElemsFacts(overlays: seq<OverlayCfg>, style: Style)
    ensures |OverlayElems(overlays, style)| == |overlays|
    ensures forall e :: e in OverlayElems(overlays, style) ==> e.sig.OverlaySig? && Signed(e)
  {
    if overlays != [] {
      OverlayElemsFacts(overlays[1..], style);
    }
  }

  /** The size of an element is part of its signature. */
  predicate Signed(e: Elem) {
    e.w == e.sig.w && e.h == e.sig.h
  }

  lemma {:induction false} ElementsFacts(wall: Wall)
    ensures |Cells(wall)| == VisibleCount(wall)
    ensures forall e :: e in Cells(wall) ==> e.sig.CellSig? && e.sig.style == wall.style && Signed(e)
    ensures forall e :: e in Overlays(wall) ==> e.sig.OverlaySig? && Signed(e)
  {
    CellElemsFacts(VisibleCells(wall.cells), wall.style);
    OverlayElemsFacts(VisibleOverlays(wall.overlays), wall.style);
  }

  /** The elements of a list, whatever their order. */
  function Bag(members: seq<Elem>): multiset<Elem> {
    if members == [] then multiset{} else multiset{members[0]} + Bag(members[1..])
  }

  lemma {:induction false} BagIsMultiset(members: seq<Elem>)
    ensures Bag(members) == multiset(members)
  {
    if members != [] {
      SplitFirst(members);
      BagIsMultiset(members[1..]);
    }
  }

  /** A node of the fabric is either one shared element or a region of relatively placed members. */
  datatype NodeSig =
    | SharedSig(elem: ElemSig)
    | RegionSig(members: multiset<Elem>, w: int, h: int, style: Style)
}
