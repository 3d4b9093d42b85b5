/** One reconciliation pass as a function of the state and of what the pass observes
    (app/compositor_fabric.py:450-1145). The class in Orchestrator does the same work step by step. */
module Fabric {
  import opened Collections
  import opened Signatures
  import opened Plan
  import opened Elimination
  import opened Lines

  const DEFER_MAX := 2
  const TEARDOWN_MAX := 3
  const REFRESH_S := 600
  const MERGE_LIMIT := 64

  // ----- State

  datatype Window = Window(path: Shm, x: int, y: int, w: int, h: int)

  datatype AsmConfig = AsmConfig(windows: seq<Window>, overlays: seq<OverlayCfg>, outW: int, outH: int,
                                 style: Style, shmOut: string, extra: string)

  datatype Command = Assemble(config: AsmConfig) | Restore

  datatype Push = Push(config: AsmConfig, at: int)

  /** `rows` and `asm` are the registry (shards and shared nodes; `asm:<key>` lines), `pushed`, `deferred`
      and `tear` the dictionaries of the module, `cmd` the last command sent to each wall. */
  datatype State = State(rows: map<NodeSig, Row>, asm: set<nat>, pushed: map<nat, Push>,
                         deferred: map<nat, nat>, tear: map<NodeSig, nat>, cmd: map<nat, Command>)

  // ----- What a pass is given and what it observes

  /** The state that a wall reports: its windows, and the identifiers and kinds of its overlays. */
  datatype Report = Report(windows: seq<Window>, overlays: multiset<(string, string)>)

  /** Callbacks are observations: which rebinds would succeed, which containers are ready, what each wall
      reports before and after the switch, and where the pass finds that it is out of date. `scan` is the
      order in which the registry lists the rows, `known` the containers that exist when step 3 starts,
      `stuck` those whose removal fails. */
  datatype Pass = Pass(node: nat, walls: seq<Wall>, latency: map<nat, real>, budget: map<nat, real>,
                       defaultBudget: real,
                       restorable: set<nat>, minCells: nat, maxCells: nat, maxNodes: Option<nat>, rules: Rules,
                       fps: int, chroma: string, bitDepth: int, slice: bool, now: int,
                       canRebind: bool, rebindOk: set<NodeSig>,
                       asksReady: bool, ready: map<nat, set<Ref>>,
                       asksReport: bool, report: map<nat, Report>, reportAfter: map<nat, Report>,
                       staleCreate: set<NodeSig>, staleSwitch: set<nat>, refs: map<NodeSig, Ref>, scan: seq<NodeSig>,
                       known: set<nat>, stuck: set<nat>)

  /** Walls have distinct keys, and the registry lists a row once. */
  predicate ValidPass(p: Pass) {
    p.maxCells > 0 && DistinctKeys(p.walls) && Distinct(p.scan)
  }

  // ----- 0. Which walls are wanted as assemblers

  function BudgetOf(p: Pass, v: nat): real {
    if v in p.budget then p.budget[v] else p.defaultBudget
  }

  predicate Saturated(p: Pass, v: nat) {
    v in p.latency && p.latency[v] > BudgetOf(p, v)
  }

  /** An assembler stays one unless it has too few windows or is restorable; another wall becomes one when
      it is saturated and has enough windows. */
  predicate Wanted(asm: set<nat>, p: Pass, wall: Wall) {
    && VisibleCount(wall) >= p.minCells
    && if wall.key in asm then wall.key !in p.restorable else Saturated(p, wall.key)
  }

  function Restored(s: State, v: nat): State {
    s.(asm := s.asm - {v}, cmd := s.cmd[v := Restore])
  }

  datatype Selection = Selection(state: State, heavy: seq<Wall>, restored: seq<nat>)

  function Select(s: State, p: Pass, n: nat): Selection
    requires n <= |p.walls|
  {
    if n == 0 then Selection(s, [], []) else
    var sel := Select(s, p, n - 1);
    var wall := p.walls[n - 1];
    if Wanted(sel.state.asm, p, wall) then
      sel.(heavy := sel.heavy + [wall])
    else if wall.key in sel.state.asm then
      sel.(state := Restored(sel.state, wall.key), restored := sel.restored + [wall.key])
    else
      sel
  }

  // ----- The plan, merged to the capacity of the machine

  function NodeCount(walls: seq<Wall>, maxCells: nat, rules: Rules): nat
    requires maxCells > 0
  {
    |PlanOf(walls, maxCells, rules).nodes.byKey|
  }

  function Grow(walls: seq<Wall>, cells: nat, rules: Rules, capacity: nat): (r: nat)
    requires cells > 0
    ensures r >= cells
    decreases MERGE_LIMIT - cells
  {
    if NodeCount(walls, cells, rules) > capacity && cells < MERGE_LIMIT
    then Grow(walls, 2 * cells, rules, capacity)
    else cells
  }

  /** Cells per shard after merging. */
  function MergedCells(p: Pass, heavy: seq<Wall>): (r: nat)
    requires p.maxCells > 0
    ensures r >= p.maxCells
  {
    if p.maxNodes.Some? && p.maxNodes.value > 0 then Grow(heavy, p.maxCells, p.rules, p.maxNodes.value) else p.maxCells
  }

  function SoloState(s: State, v: nat): State {
    if v in s.asm then Restored(s, v).(pushed := s.pushed - {v}) else s
  }

  /** Restores the assemblers among the walls that would get fewer than two tiles. */
  function DropSolos(s: State, walls: seq<Wall>, cells: nat, rules: Rules, n: nat): State
    requires cells > 0 && n <= |walls|
  {
    if n == 0 then s else
    var t := DropSolos(s, walls, cells, rules, n - 1);
    if TileCount(walls, walls[n - 1], cells, rules) >= 2 then t else SoloState(t, walls[n - 1].key)
  }

  /** Cells per shard in the plan that is carried out. */
  function FinalCells(p: Pass, heavy: seq<Wall>, cells: nat): (r: nat)
    requires p.maxCells > 0 && cells > 0
    ensures r > 0
  {
    if |Kept(heavy, cells, p.rules)| == |heavy| then cells else p.maxCells
  }

  // ----- 1. Nodes: kept, rebound in place, or created

  datatype Place = Place(wall: nat, x: int, y: int, w: int, h: int)

  datatype Slot = Slot(place: Place, fmt: Format)

  function TilePlaces(tiles: seq<Tile>, key: nat, sig: NodeSig): seq<Place> {
    if tiles == [] then [] else
    (if tiles[0].sig == sig then [Place(key, tiles[0].x, tiles[0].y, tiles[0].w, tiles[0].h)] else [])
    + TilePlaces(tiles[1..], key, sig)
  }

  /** Where the plan shows a node. */
  function Places(walls: seq<Wall>, outputs: map<nat, Output>, sig: NodeSig): seq<Place> {
    if walls == [] then [] else
    (if walls[0].key in outputs then TilePlaces(outputs[walls[0].key].tiles, walls[0].key, sig) else [])
    + Places(walls[1..], outputs, sig)
  }

  function FormatOf(p: Pass, style: Style): Format {
    Format(if style.chroma.Some? && style.chroma.value != "" then style.chroma.value
           else if p.chroma != "" then p.chroma else "422",
           if style.bitDepth.Some? && style.bitDepth.value != 0 then style.bitDepth.value
           else if p.bitDepth != 0 then p.bitDepth else 8,
           p.fps, p.slice)
  }

  /** The slot that a row would free, if it may be rebound. */
  function FreedSlot(row: Row, node: nat): Option<Slot> {
    if row.node == node && row.kind == ShardKind && |row.parents| == 1 && row.at.Some? && row.fmt.Some?
    then Some(Slot(Place(row.parents[0], row.at.value.0, row.at.value.1, row.w, row.h), row.fmt.value))
    else None
  }

  /** Rows that leave the plan, by slot, in the order of the scan. */
  function FreedSlots(rows: map<NodeSig, Row>, node: nat, want: set<NodeSig>, scan: seq<NodeSig>): map<Slot,
                      seq<NodeSig>> {
    if scan == [] then map[] else
    var sig := scan[|scan| - 1];
    var slots := FreedSlots(rows, node, want, scan[..|scan| - 1]);
    if sig in rows && sig !in want && FreedSlot(rows[sig], node).Some? then
      var slot := FreedSlot(rows[sig], node).value;
      slots[slot := Listed(slots, slot) + [sig]]
    else slots
  }

  datatype Bench = Bench(rows: map<NodeSig, Row>, slots: map<Slot, seq<NodeSig>>, shm: map<NodeSig, Shm>,
                         refOf: map<Shm, Ref>, created: seq<NodeSig>, rebound: map<NodeSig, NodeSig>, stale: bool)

  function Use(b: Bench, sig: NodeSig): Bench
    requires sig in b.rows
  {
    b.(shm := b.shm[sig := b.rows[sig].shm], refOf := b.refOf[b.rows[sig].shm := b.rows[sig].ref])
  }

  /** The slot that a node needs, when it may take over a running shard. */
  function NeededSlot(p: Pass, node: Node, places: seq<Place>): Option<Slot> {
    if p.canRebind && node.kind == ShardKind && |places| == 1 && |node.sharedBy| == 1
    then Some(Slot(places[0], FormatOf(p, node.style)))
    else None
  }

  /** The row that would be taken over. */
  function Candidate(b: Bench, need: Option<Slot>): Option<NodeSig> {
    if need.Some? && Listed(b.slots, need.value) != []
    then Some(Listed(b.slots, need.value)[|Listed(b.slots, need.value)| - 1])
    else None
  }

  function At(places: seq<Place>): Option<(int, int)> {
    if |places| == 1 then Some((places[0].x, places[0].y)) else None
  }

  function RowOf(p: Pass, node: Node, places: seq<Place>, ref: Ref, shm: Shm): Row {
    Row(p.node, node.kind, ref, shm, node.sharedBy, At(places), node.w, node.h, Some(FormatOf(p, node.style)))
  }

  function Rebind(b: Bench, p: Pass, sig: NodeSig, node: Node, places: seq<Place>, slot: Slot, taken: NodeSig): Bench
    requires taken in b.rows && Listed(b.slots, slot) != []
  {
    var rows := (b.rows - {taken})[sig := RowOf(p, node, places, b.rows[taken].ref, b.rows[taken].shm)];
    var left := Listed(b.slots, slot)[..|Listed(b.slots, slot)| - 1];
    Use(b.(rows := rows, slots := b.slots[slot := left], rebound := b.rebound[sig := taken]), sig)
  }

  function NewRef(p: Pass, sig: NodeSig): Ref {
    if sig in p.refs then p.refs[sig] else Named(sig)
  }

  function Create(b: Bench, p: Pass, sig: NodeSig, node: Node, places: seq<Place>): Bench {
    if sig in p.staleCreate then b.(stale := true) else
    var rows := b.rows[sig := RowOf(p, node, places, NewRef(p, sig), Fab(sig))];
    Use(b.(rows := rows, created := b.created + [sig]), sig)
  }

  function Materialise(b: Bench, p: Pass, sig: NodeSig, node: Node, places: seq<Place>): Bench {
    if b.stale then b
    else if sig in b.rows then Use(b, sig)
    else
      var need := NeededSlot(p, node, places);
      var taken := Candidate(b, need);
      if taken.Some? && taken.value in b.rows && sig in p.rebindOk
      then Rebind(b, p, sig, node, places, need.value, taken.value)
      else Create(b, p, sig, node, places)
  }

  function StartBench(s: State, p: Pass, plan: FabricPlan): Bench {
    Bench(s.rows, if p.canRebind then FreedSlots(s.rows, p.node, plan.nodes.byKey.Keys, p.scan) else map[],
          map[], map[], [], map[], false)
  }

  function MaterialiseAll(b: Bench, p: Pass, walls: seq<Wall>, plan: FabricPlan, n: nat): Bench
    requires n <= |plan.nodes.order|
  {
    if n == 0 then b else
    var sig := plan.nodes.order[n - 1];
    var c := MaterialiseAll(b, p, walls, plan, n - 1);
    if sig in plan.nodes.byKey then Materialise(c, p, sig, plan.nodes.byKey[sig], Places(walls, plan.outputs, sig))
    else c
  }

  // ----- 2. Assemblers

  function Windows(tiles: seq<Tile>, shm: map<NodeSig, Shm>): seq<Window> {
    if tiles == [] then [] else
    (if tiles[0].sig in shm then [Window(shm[tiles[0].sig], tiles[0].x, tiles[0].y, tiles[0].w, tiles[0].h)] else [])
    + Windows(tiles[1..], shm)
  }

  function AsmOf(o: Output, shm: map<NodeSig, Shm>): AsmConfig {
    AsmConfig(Windows(o.tiles, shm), o.overlays, o.outW, o.outH, o.style, o.shmOut, o.extra)
  }

  function OverlayWitness(overlays: seq<OverlayCfg>): multiset<(string, string)> {
    if overlays == [] then multiset{} else multiset{(overlays[0].id, overlays[0].kind)} + OverlayWitness(overlays[1..])
  }

  /** The wall already reports the expected wiring. */
  predicate InPlace(r: Option<Report>, asm: AsmConfig) {
    r.Some? && r.value.windows == asm.windows && r.value.overlays == OverlayWitness(asm.overlays)
  }

  predicate SameAsPushed(s: State, v: nat, asm: AsmConfig) {
    v in s.pushed && s.pushed[v].config == asm
  }

  /** Fallback without reports: pushed already, and less than the refresh period ago. */
  predicate PushedRecently(s: State, p: Pass, v: nat, asm: AsmConfig) {
    SameAsPushed(s, v, asm) && p.now - s.pushed[v].at < REFRESH_S
  }

  function ReportOf(reports: map<nat, Report>, v: nat): Option<Report> {
    if v in reports then Some(reports[v]) else None
  }

  predicate Skips(s: State, p: Pass, v: nat, asm: AsmConfig) {
    if p.asksReport then InPlace(ReportOf(p.report, v), asm) && SameAsPushed(s, v, asm)
    else PushedRecently(s, p, v, asm)
  }

  function PathsOf(windows: seq<Window>): set<Shm> {
    if windows == [] then {} else {windows[0].path} + PathsOf(windows[1..])
  }

  function SeenPaths(p: Pass, v: nat): set<Shm> {
    if p.asksReport && v in p.report then PathsOf(p.report[v].windows) else {}
  }

  /** Containers behind the windows that the wall does not show yet. */
  function AwaitedRefs(windows: seq<Window>, seen: set<Shm>, refOf: map<Shm, Ref>): set<Ref> {
    if windows == [] then {} else
    (if windows[0].path !in seen && windows[0].path in refOf then {refOf[windows[0].path]} else {})
    + AwaitedRefs(windows[1..], seen, refOf)
  }

  function Silent(p: Pass, v: nat, asm: AsmConfig, refOf: map<Shm, Ref>): set<Ref> {
    if p.asksReady
    then AwaitedRefs(asm.windows, SeenPaths(p, v), refOf) - (if v in p.ready then p.ready[v] else {})
    else {}
  }

  datatype Outcome = Skipped | Deferred | Switched | Abandoned

  /** What happens to one wall. A wall with silent shards waits, but at most `DEFER_MAX` times in a row. */
  function OutcomeOf(s: State, p: Pass, v: nat, asm: AsmConfig, refOf: map<Shm, Ref>): Outcome {
    if Skips(s, p, v, asm) then Skipped
    else if Silent(p, v, asm, refOf) != {} && Count(s.deferred, v) < DEFER_MAX then Deferred
    else if v in p.staleSwitch then Abandoned
    else Switched
  }

  /** The fallback memory is written before the push is attempted. */
  function Remembered(s: State, p: Pass, v: nat, asm: AsmConfig): State {
    if p.asksReport then s else s.(pushed := s.pushed[v := Push(asm, p.now)])
  }

  function Apply(s: State, p: Pass, v: nat, asm: AsmConfig, silent: set<Ref>, o: Outcome): State {
    match o
    case Skipped => s
    case Deferred => s.(deferred := s.deferred[v := Count(s.deferred, v) + 1], pushed := s.pushed - {v})
    case Abandoned =>
      var r := Remembered(s, p, v, asm);
      if silent != {} then r.(deferred := r.deferred - {v}) else r
    case Switched =>
      s.(deferred := s.deferred - {v}, pushed := s.pushed[v := Push(asm, p.now)],
         asm := s.asm + {v}, cmd := s.cmd[v := Assemble(asm)])
  }

  datatype Board = Board(state: State, outcomes: map<nat, Outcome>, stale: bool)

  function SwitchOne(b: Board, p: Pass, wall: Wall, plan: FabricPlan, shm: map<NodeSig, Shm>,
                     refOf: map<Shm, Ref>): Board {
    if b.stale || wall.key !in plan.outputs then b else
    var v := wall.key;
    var asm := AsmOf(plan.outputs[v], shm);
    var o := OutcomeOf(b.state, p, v, asm, refOf);
    Board(Apply(b.state, p, v, asm, Silent(p, v, asm, refOf), o), b.outcomes[v := o], o == Abandoned)
  }

  function SwitchAll(b: Board, p: Pass, walls: seq<Wall>, plan: FabricPlan, shm: map<NodeSig, Shm>,
                     refOf: map<Shm, Ref>, n: nat): Board
    requires n <= |walls|
  {
    if n == 0 then b else SwitchOne(SwitchAll(b, p, walls, plan, shm, refOf, n - 1), p, walls[n - 1], plan, shm, refOf)
  }

  // ----- 3. Teardown

  /** Some consulted wall did not give its state. */
  predicate Unreadable(p: Pass, consulted: seq<nat>) {
    consulted != [] && (consulted[0] !in p.reportAfter || Unreadable(p, consulted[1..]))
  }

  /** Everything that the consulted walls report to read. */
  function Read(p: Pass, consulted: seq<nat>): set<Shm> {
    if consulted == [] then {} else
    (if consulted[0] in p.reportAfter then PathsOf(p.reportAfter[consulted[0]].windows) else {})
        + Read(p, consulted[1..])
  }

  predicate Orphan(s: State, p: Pass, want: set<NodeSig>, sig: NodeSig) {
    sig in s.rows && s.rows[sig].node == p.node && sig !in want
  }

  predicate Held(s: State, p: Pass, consulted: seq<nat>, sig: NodeSig)
    requires sig in s.rows
  {
    p.asksReport && (Unreadable(p, consulted) || s.rows[sig].shm in Read(p, consulted))
  }

  /** The orphan waits: it is held, and has not waited `TEARDOWN_MAX` times. */
  predicate Postponed(s: State, p: Pass, want: set<NodeSig>, consulted: seq<nat>, sig: NodeSig) {
    Orphan(s, p, want, sig) && Held(s, p, consulted, sig) && Count(s.tear, sig) < TEARDOWN_MAX
  }

  predicate Condemned(s: State, p: Pass, want: set<NodeSig>, consulted: seq<nat>, sig: NodeSig) {
    Orphan(s, p, want, sig) && !Postponed(s, p, want, consulted, sig)
  }

  /** Rows destroyed, and rows that wait, among those given. */
  function CondemnedAmong(s: State, p: Pass, want: set<NodeSig>, consulted: seq<nat>,
                          some: set<NodeSig>): set<NodeSig> {
    set sig | sig in some && Condemned(s, p, want, consulted, sig)
  }

  function PostponedAmong(s: State, p: Pass, want: set<NodeSig>, consulted: seq<nat>,
                          some: set<NodeSig>): set<NodeSig> {
    set sig | sig in some && Postponed(s, p, want, consulted, sig)
  }

  function Waiting(tear: map<NodeSig, nat>, wait: set<NodeSig>): map<NodeSig, nat> {
    map sig | sig in wait :: Count(tear, sig) + 1
  }

  /** The counters after the given rows: an orphan that waits is counted, one that is destroyed is forgotten. */
  function TearAmong(s: State, p: Pass, want: set<NodeSig>, consulted: seq<nat>, some: set<NodeSig>): map<NodeSig,
                     nat> {
    (s.tear - CondemnedAmong(s, p, want, consulted, some))
        + Waiting(s.tear, PostponedAmong(s, p, want, consulted, some))
  }

  function EntriesOf(s: State): Entries {
    Entries(s.asm, s.rows)
  }

  /** Known containers that fall in step 3: those of the condemned rows, and those that fall with them. */
  function FallenIn(s: State, p: Pass, want: set<NodeSig>, consulted: seq<nat>): set<nat> {
    Struck(EntriesOf(s), p.known, ContainersOf(s.rows, CondemnedAmong(s, p, want, consulted, s.rows.Keys)))
  }

  /** Rows are judged on the list read at the start; destroying a known container also removes what depends
      on it, whether or not its removal succeeds. A wall that is destroyed has no last command any more. */
  function Teardown(s: State, p: Pass, want: set<NodeSig>, consulted: seq<nat>): State {
    var fallen := FallenIn(s, p, want, consulted);
    var left := Left(EntriesOf(s), fallen);
    s.(rows := left.rows - CondemnedAmong(s, p, want, consulted, s.rows.Keys), asm := left.asm, cmd := s.cmd - fallen,
       tear := TearAmong(s, p, want, consulted, s.rows.Keys))
  }

  // ----- A whole pass

  datatype Result = Result(state: State, heavy: seq<Wall>, plan: FabricPlan, bench: Bench, outcomes: map<nat, Outcome>,
                           consulted: seq<nat>, fallen: set<nat>, stale: bool)

  function Keys(walls: seq<Wall>): seq<nat> {
    if walls == [] then [] else [walls[0].key] + Keys(walls[1..])
  }

  /** Assemblers restored because they would have a single tile. */
  function SoloKeys(s: State, walls: seq<Wall>, cells: nat, rules: Rules): seq<nat>
    requires cells > 0
  {
    SoloKeysUpTo(s, walls, cells, rules, |walls|)
  }

  function SoloKeysUpTo(s: State, walls: seq<Wall>, cells: nat, rules: Rules, n: nat): seq<nat>
    requires cells > 0 && n <= |walls|
  {
    if n == 0 then [] else
    SoloKeysUpTo(s, walls, cells, rules, n - 1)
    + (if TileCount(walls, walls[n - 1], cells, rules) < 2 && walls[n - 1].key in s.asm then [walls[n - 1].key] else [])
  }

  /** Steps 1 to 3, once the plan is fixed. */
  function CarryOut(s: State, p: Pass, walls: seq<Wall>, solos: seq<nat>, plan: FabricPlan): Result {
    var bench := MaterialiseAll(StartBench(s, p, plan), p, walls, plan, |plan.nodes.order|);
    var s1 := s.(rows := bench.rows);
    if bench.stale then Result(s1, walls, plan, bench, map[], [], {}, true) else
    var board := SwitchAll(Board(s1, map[], false), p, walls, plan, bench.shm, bench.refOf, |walls|);
    if board.stale then Result(board.state, walls, plan, bench, board.outcomes, [], {}, true) else
    var consulted := Keys(walls) + solos;
    var want := plan.nodes.byKey.Keys;
    Result(Teardown(board.state, p, want, consulted), walls, plan, bench, board.outcomes, consulted,
           FallenIn(board.state, p, want, consulted), false)
  }

  function Reconcile(s: State, p: Pass): Result
    requires ValidPass(p)
  {
    var sel := Select(s, p, |p.walls|);
    var cells := MergedCells(p, sel.heavy);
    var walls := Kept(sel.heavy, cells, p.rules);
    var s1 := DropSolos(sel.state, sel.heavy, cells, p.rules, |sel.heavy|);
    var plan := PlanOf(walls, FinalCells(p, sel.heavy, cells), p.rules);
    CarryOut(s1, p, walls, SoloKeys(sel.state, sel.heavy, cells, p.rules), plan)
  }
}
