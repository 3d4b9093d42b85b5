/** The registry of the fabric, and what destroying containers removes from it
    (app/compositor_fabric.py:453-455, app/containers.py:38-80). */
module Lines {
  import opened Collections
  import opened Plan
  import opened Signatures

  /** What a node is written to or a window is read from. */
  datatype Shm = Fab(sig: NodeSig) | External(name: string)

  /** A container: its number, as a deployment gives it, or only its name when the deployment gave none. */
  datatype Ref = Given(vmid: nat) | Named(sig: NodeSig)

  /** What a running container cannot change without being replaced. */
  datatype Format = Format(chroma: string, bitDepth: int, fps: int, slice: bool)

  datatype Row = Row(node: nat, kind: Kind, ref: Ref, shm: Shm, parents: seq<nat>, at: Option<(int, int)>,
                     w: int, h: int, fmt: Option<Format>)

  /** Lines of the walls that are assemblers, and of the shards and shared nodes. */
  datatype Entries = Entries(asm: set<nat>, rows: map<NodeSig, Row>)

  /** A wall recorded as a parent is an assembler. */
  predicate ShownBy(row: Row, asm: set<nat>) {
    exists v :: v in row.parents && v in asm
  }

  predicate RunsIn(row: Row, containers: set<nat>) {
    row.ref.Given? && row.ref.vmid in containers
  }

  /** The registry without some containers: their lines, their nodes, and the nodes of every machine that no
      remaining assembler shows. */
  function Without(r: Entries, gone: set<nat>): Entries {
    Entries(r.asm - gone,
             map sig | sig in r.rows && !RunsIn(r.rows[sig], gone) && ShownBy(r.rows[sig], r.asm - gone) :: r.rows[sig])
  }

  /** Containers of the nodes that nobody shows once some containers are gone. */
  function OrphanRefs(r: Entries, gone: set<nat>): set<nat> {
    set sig | sig in r.rows && r.rows[sig].ref.Given? && !ShownBy(r.rows[sig], r.asm - gone) :: r.rows[sig].ref.vmid
  }

  /** No known container of a node that nobody shows is left. */
  predicate Closed(r: Entries, known: set<nat>, gone: set<nat>) {
    OrphanRefs(r, gone) * known <= gone
  }

  /** Every container that falls with some known ones. */
  function Fall(r: Entries, known: set<nat>, gone: set<nat>): (all: set<nat>)
    requires gone <= known
    ensures gone <= all <= known && Closed(r, known, all)
    decreases known - gone
  {
    if Closed(r, known, gone) then gone else Fall(r, known, gone + OrphanRefs(r, gone) * known)
  }

  lemma {:induction false} ShownByFewer(row: Row, some: set<nat>, more: set<nat>)
    requires some <= more && ShownBy(row, some)
    ensures ShownBy(row, more)
  {
  }

  lemma {:induction false} MoreOrphans(r: Entries, a: set<nat>, b: set<nat>)
    requires a <= b
    ensures OrphanRefs(r, a) <= OrphanRefs(r, b)
  {
    hide ShownBy;
    forall sig | sig in r.rows && !ShownBy(r.rows[sig], r.asm - a)
      ensures !ShownBy(r.rows[sig], r.asm - b)
    {
      if ShownBy(r.rows[sig], r.asm - b) {
        ShownByFewer(r.rows[sig], r.asm - b, r.asm - a);
      }
    }
  }

  /** What falls is the least that is closed. */
  lemma {:induction false} FallIsLeast(r: Entries, known: set<nat>, gone: set<nat>, all: set<nat>)
    requires gone <= known && gone <= all && Closed(r, known, all)
    ensures Fall(r, known, gone) <= all
    decreases known - gone
  {
    hide OrphanRefs;
    if !Closed(r, known, gone) {
      MoreOrphans(r, gone, all);
      FallIsLeast(r, known, gone + OrphanRefs(r, gone) * known, all);
    }
  }

  /** A container falls because it was asked for, or because nobody shows its node any more. */
  lemma {:induction false} WhyItFalls(r: Entries, known: set<nat>, gone: set<nat>)
    requires gone <= known
    ensures Fall(r, known, gone) <= gone + OrphanRefs(r, Fall(r, known, gone))
    decreases known - gone
  {
    hide OrphanRefs;
    if !Closed(r, known, gone) {
      WhyItFalls(r, known, gone + OrphanRefs(r, gone) * known);
      MoreOrphans(r, gone, Fall(r, known, gone));
    }
  }

  lemma {:induction false} WithoutTwice(r: Entries, a: set<nat>, b: set<nat>)
    ensures Without(Without(r, a), b) == Without(r, a + b)
  {
    hide ShownBy;
    assert (r.asm - a) - b == r.asm - (a + b);
    forall sig | sig in r.rows && ShownBy(r.rows[sig], r.asm - (a + b))
      ensures ShownBy(r.rows[sig], r.asm - a)
    {
      ShownByFewer(r.rows[sig], r.asm - (a + b), r.asm - a);
    }
  }

  /** What is left orphan after a first round was so, or is so, in the registry before. */
  lemma {:induction false} OrphansAfter(r: Entries, a: set<nat>, b: set<nat>)
    ensures OrphanRefs(Without(r, a), b) <= OrphanRefs(r, a + b)
    ensures OrphanRefs(r, a + b) <= OrphanRefs(Without(r, a), b) + OrphanRefs(r, a) + a
  {
    hide ShownBy;
    assert (r.asm - a) - b == r.asm - (a + b);
    forall d | d in OrphanRefs(r, a + b)
      ensures d in OrphanRefs(Without(r, a), b) + OrphanRefs(r, a) + a
    {
      var sig :| sig in r.rows && r.rows[sig].ref == Given(d) && !ShownBy(r.rows[sig], r.asm - (a + b));
      if sig in Without(r, a).rows {
        assert Without(r, a).rows[sig] == r.rows[sig];
      }
    }
  }

  // ----- Several destructions in a row

  /** Known containers that fall when destruction is called on some, one after the other. */
  function Struck(e: Entries, known: set<nat>, struck: set<nat>): set<nat> {
    if struck * known == {} then {} else Fall(e, known, struck * known)
  }

  /** Nothing is removed when no known container falls. */
  function Left(e: Entries, fallen: set<nat>): Entries {
    if fallen == {} then e else Without(e, fallen)
  }

  function ContainersOf(rows: map<NodeSig, Row>, some: set<NodeSig>): set<nat> {
    set sig | sig in some && sig in rows && rows[sig].ref.Given? :: rows[sig].ref.vmid
  }
}
