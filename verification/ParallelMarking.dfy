/**
 The mark stage as it runs in parallel: repositories are walked side by side, each with two rounds of
 goroutines that read manifests and add digests to shared sets one at a time. How many goroutines may
 run at once only restricts the schedules, and every schedule is considered.
 */
module ParallelMarking {
  import opened Tagging
  import opened GarbageCollect

  /** A goroutine about to mark its manifest, about to read it, or adding its references to one of the sets. */
  datatype Worker = Starting(digest: Digest) | Fetching(digest: Digest) | Adding(left: seq<Digest>, list: bool)

  /** The walk over one repository; the first round is skipped when untagged manifests are kept. */
  datatype Walk =
    | Waiting
    | Marking(first: bool, workers: seq<Worker>, referenced: set<Digest>, dels: set<Digest>)
    | Over(dels: set<Digest>)
    | Aborted

  datatype Board = Board(marks: set<Digest>, walks: map<string, Walk>)

  /** One indivisible step; `order` is the order in which a set or the references of a manifest are gone through. */
  datatype Step = Begin(n: string, order: seq<Digest>) | Turn(n: string, i: nat, order: seq<Digest>)
      | Join(n: string, order: seq<Digest>)

  function Elements(s: seq<Digest>): set<Digest> {
    set d | d in s
  }

  function Spawn(order: seq<Digest>): seq<Worker> {
    seq(|order|, i requires 0 <= i < |order| => Starting(order[i]))
  }

  predicate AllDone(workers: seq<Worker>) {
    forall i :: 0 <= i < |workers| ==> workers[i].Adding? && workers[i].left == []
  }

  predicate CanTurn(st: Storage, w: Worker, order: seq<Digest>) {
    match w
    case Starting(_) => true
    case Fetching(d) => Elements(order) == References(st, d)
    case Adding(left, _) => left != []
  }

  predicate Enabled(st: Storage, r: Repo, removeUntagged: bool, w: Walk, s: Step) {
    match s
    case Begin(_, order) => w.Waiting? && Elements(order) == if removeUntagged then Tagged(st, r) else Enumerated(st, r)
    case Turn(_, i, order) => w.Marking? && i < |w.workers| && CanTurn(st, w.workers[i], order)
    case Join(_, order) => w.Marking? && AllDone(w.workers) && (w.first ==> Elements(order) == w.referenced)
  }

  /** The walk after a step, and what the step adds to the shared marks. */
  function Move(st: Storage, r: Repo, removeUntagged: bool, w: Walk, s: Step): (Walk, set<Digest>)
    requires Enabled(st, r, removeUntagged, w, s)
  {
    match s
    case Begin(_, order) =>
      if r.unreadable || (removeUntagged && !TagsReadable(r)) then (Aborted, {})
      else (Marking(removeUntagged, Spawn(order), if removeUntagged then {} else Enumerated(st, r), {}), {})
    case Turn(_, i, order) => TurnOf(st, r, w, i, order)
    case Join(_, order) =>
      if w.first
      then (Marking(false, Spawn(order), w.referenced, Enumerated(st, r) - Tagged(st, r) - w.referenced), {})
      else (Over(w.dels), {})
  }

  function TurnOf(st: Storage, r: Repo, w: Walk, i: nat, order: seq<Digest>): (Walk, set<Digest>)
    requires w.Marking? && i < |w.workers| && CanTurn(st, w.workers[i], order)
  {
    match w.workers[i]
    case Starting(d) => (w.(workers := w.workers[i := Fetching(d)]), {d})
    case Fetching(d) =>
      if !Gets(st, r, d) then (Aborted, {})
      else (w.(workers := w.workers[i := Adding(order, w.first && IsList(st, d))]), {})
    case Adding(left, list) =>
      var next := w.(workers := w.workers[i := Adding(left[1..], list)]);
      if list then (next.(referenced := next.referenced + {left[0]}), {}) else (next, {left[0]})
  }

  // ---- what goroutines still owe ----

  function OwedMarks(st: Storage, first: bool, w: Worker): set<Digest> {
    match w
    case Starting(d) => {d} + if first && IsList(st, d) then {} else References(st, d)
    case Fetching(d) => if first && IsList(st, d) then {} else References(st, d)
    case Adding(left, list) => if list then {} else Elements(left)
  }

  function OwedRefs(st: Storage, w: Worker): set<Digest> {
    match w
    case Starting(d) => if IsList(st, d) then References(st, d) else {}
    case Fetching(d) => if IsList(st, d) then References(st, d) else {}
    case Adding(left, list) => if list then Elements(left) else {}
  }

  ghost function AllOwedMarks(st: Storage, first: bool, ws: seq<Worker>): set<Digest> {
    set i, d | 0 <= i < |ws| && d in OwedMarks(st, first, ws[i]) :: d
  }

  ghost function AllOwedRefs(st: Storage, ws: seq<Worker>): set<Digest> {
    set i, d | 0 <= i < |ws| && d in OwedRefs(st, ws[i]) :: d
  }

  lemma UpdateMarks(st: Storage, first: bool, ws: seq<Worker>, i: nat, w: Worker, added: set<Digest>)
    requires i < |ws| && OwedMarks(st, first, ws[i]) == OwedMarks(st, first, w) + added
    ensures AllOwedMarks(st, first, ws) == AllOwedMarks(st, first, ws[i := w]) + added
  {
    var next := ws[i := w];
    assert next[i] == w && forall k :: 0 <= k < |ws| && k != i ==> next[k] == ws[k];
    forall d | d in AllOwedMarks(st, first, ws) ensures d in AllOwedMarks(st, first, next) + added {
      var k :| 0 <= k < |ws| && d in OwedMarks(st, first, ws[k]);
      if k == i && d !in added { assert d in OwedMarks(st, first, next[i]); }
    }
  }

  lemma UpdateRefs(st: Storage, ws: seq<Worker>, i: nat, w: Worker, added: set<Digest>)
    requires i < |ws| && OwedRefs(st, ws[i]) == OwedRefs(st, w) + added
    ensures AllOwedRefs(st, ws) == AllOwedRefs(st, ws[i := w]) + added
  {
    var next := ws[i := w];
    assert next[i] == w && forall k :: 0 <= k < |ws| && k != i ==> next[k] == ws[k];
    forall d | d in AllOwedRefs(st, ws) ensures d in AllOwedRefs(st, next) + added {
      var k :| 0 <= k < |ws| && d in OwedRefs(st, ws[k]);
      if k == i && d !in added { assert d in OwedRefs(st, next[i]); }
    }
  }

  lemma SpawnOwesMarks(st: Storage, first: bool, order: seq<Digest>)
    ensures var ds := Elements(order);
      AllOwedMarks(st, first, Spawn(order)) == ds + if first then ImageRefs(st, ds) else AllRefs(st, ds)
  {
    var ws, ds := Spawn(order), Elements(order);
    forall x | x in ds + if first then ImageRefs(st, ds) else AllRefs(st, ds) ensures x in AllOwedMarks(st, first, ws) {
      var d :| d in ds && x in OwedMarks(st, first, Starting(d));
      var i :| 0 <= i < |order| && order[i] == d;
      assert ws[i] == Starting(d);
    }
  }

  lemma SpawnOwesRefs(st: Storage, order: seq<Digest>)
    ensures AllOwedRefs(st, Spawn(order)) == ListRefs(st, Elements(order))
  {
    var ws := Spawn(order);
    forall x | x in ListRefs(st, Elements(order)) ensures x in AllOwedRefs(st, ws) {
      var d :| d in order && IsList(st, d) && x in References(st, d);
      var i :| 0 <= i < |order| && order[i] == d;
      assert ws[i] == Starting(d) && x in OwedRefs(st, ws[i]);
    }
  }

  // ---- one walk ----

  /** What marking a repository adds in all, if nothing fails. */
  ghost function Expected(st: Storage, r: Repo, removeUntagged: bool): set<Digest> {
    var referenced := Referenced(st, r, removeUntagged);
    (if removeUntagged then Tagged(st, r) + ImageRefs(st, Tagged(st, r)) else {}) + referenced + AllRefs(st, referenced)
  }

  /** What a walk will still add to the shared marks. */
  ghost function Owed(st: Storage, r: Repo, removeUntagged: bool, w: Walk): set<Digest> {
    match w
    case Waiting => Expected(st, r, removeUntagged)
    case Marking(first, workers, _, _) =>
      var referenced := Referenced(st, r, removeUntagged);
      AllOwedMarks(st, first, workers) + if first then referenced + AllRefs(st, referenced) else {}
    case Over(_) => {}
    case Aborted => {}
  }

  /** Every manifest to be read can be read, or some goroutine has yet to find out. */
  ghost predicate Checked(st: Storage, r: Repo, ds: set<Digest>, ws: seq<Worker>) {
    forall d :: d in ds ==> Gets(st, r, d) || Unread(ws, d)
  }

  ghost predicate Unread(ws: seq<Worker>, d: Digest) {
    exists i :: 0 <= i < |ws| && (ws[i] == Starting(d) || ws[i] == Fetching(d))
  }

  ghost predicate WalkOk(st: Storage, r: Repo, removeUntagged: bool, w: Walk) {
    match w
    case Waiting => true
    case Marking(first, workers, referenced, dels) =>
      && !r.unreadable && (removeUntagged ==> TagsReadable(r))
      && (if first
          then FirstOk(st, r, workers, referenced) && removeUntagged
          else SecondOk(st, r, removeUntagged, workers, referenced, dels))
    case Over(dels) => MarkRepo(st, r, removeUntagged).Marked? && dels == MarkRepo(st, r, removeUntagged).dels
    case Aborted => MarkRepo(st, r, removeUntagged).Failed?
  }

  ghost predicate FirstOk(st: Storage, r: Repo, workers: seq<Worker>, referenced: set<Digest>) {
    && referenced + AllOwedRefs(st, workers) == ListRefs(st, Tagged(st, r))
    && Checked(st, r, Tagged(st, r), workers)
    && forall i :: 0 <= i < |workers| && !workers[i].Adding? ==> workers[i].digest in Tagged(st, r)
  }

  ghost predicate SecondOk(st: Storage, r: Repo, removeUntagged: bool, workers: seq<Worker>, referenced: set<Digest>,
                           dels: set<Digest>) {
    && (removeUntagged ==> AllGet(st, r, Tagged(st, r)))
    && referenced == Referenced(st, r, removeUntagged) && Checked(st, r, referenced, workers)
    && dels == (if removeUntagged then Enumerated(st, r) - Tagged(st, r) - referenced else {})
    && forall i :: 0 <= i < |workers| ==>
        if workers[i].Adding? then !workers[i].list else workers[i].digest in referenced
  }

  lemma CheckedTurn(st: Storage, r: Repo, ds: set<Digest>, ws: seq<Worker>, i: nat, w: Worker)
    requires Checked(st, r, ds, ws) && i < |ws|
    requires ws[i].Adding? || w == Fetching(ws[i].digest) || Gets(st, r, ws[i].digest)
    ensures Checked(st, r, ds, ws[i := w])
  {
    var next := ws[i := w];
    forall d | d in ds && !Gets(st, r, d) ensures Unread(next, d) {
      var k :| 0 <= k < |ws| && (ws[k] == Starting(d) || ws[k] == Fetching(d));
      if k == i { assert next[i] == Fetching(d); } else { assert next[k] == ws[k]; }
    }
  }

  lemma CheckedSpawn(st: Storage, r: Repo, order: seq<Digest>)
    ensures Checked(st, r, Elements(order), Spawn(order))
  {
    var ws := Spawn(order);
    forall d | d in Elements(order) ensures Unread(ws, d) {
      var i :| 0 <= i < |order| && order[i] == d;
      assert ws[i] == Starting(d);
    }
  }

  /** The owed sets of a worker before and after its turn differ by what the turn adds. */
  lemma TurnOwes(st: Storage, first: bool, w: Worker, order: seq<Digest>)
    requires CanTurn(st, w, order)
    ensures match w
      case Starting(d) =>
        && OwedMarks(st, first, w) == OwedMarks(st, first, Fetching(d)) + {d}
        && OwedRefs(st, w) == OwedRefs(st, Fetching(d))
      case Fetching(d) =>
        && OwedMarks(st, first, w) == OwedMarks(st, first, Adding(order, first && IsList(st, d)))
        && (first ==> OwedRefs(st, w) == OwedRefs(st, Adding(order, IsList(st, d))))
      case Adding(left, list) =>
        && OwedMarks(st, first, w) == OwedMarks(st, first, Adding(left[1..], list)) + (if list then {} else {left[0]})
        && OwedRefs(st, w) == OwedRefs(st, Adding(left[1..], list)) + (if list then {left[0]} else {})
  {
    if w.Adding? { assert w.left == [w.left[0]] + w.left[1..]; }
  }

  lemma FirstTurn(st: Storage, r: Repo, removeUntagged: bool, w: Walk, i: nat, order: seq<Digest>)
    requires WalkOk(st, r, removeUntagged, w) && w.Marking? && w.first && i < |w.workers| &&
      CanTurn(st, w.workers[i], order)
    requires TurnOf(st, r, w, i, order).0.Marking?
    ensures WalkOk(st, r, removeUntagged, TurnOf(st, r, w, i, order).0)
  {
    var ws, v, m := w.workers, w.workers[i], TurnOf(st, r, w, i, order);
    TurnOwes(st, true, v, order);
    UpdateRefs(st, ws, i, m.0.workers[i], if v.Adding? && v.list then {v.left[0]} else {});
    CheckedTurn(st, r, Tagged(st, r), ws, i, m.0.workers[i]);
  }

  lemma SecondTurn(st: Storage, r: Repo, removeUntagged: bool, w: Walk, i: nat, order: seq<Digest>)
    requires WalkOk(st, r, removeUntagged, w) && w.Marking? && !w.first && i < |w.workers| &&
      CanTurn(st, w.workers[i], order)
    requires TurnOf(st, r, w, i, order).0.Marking?
    ensures WalkOk(st, r, removeUntagged, TurnOf(st, r, w, i, order).0)
  {
    CheckedTurn(st, r, w.referenced, w.workers, i, TurnOf(st, r, w, i, order).0.workers[i]);
  }

  lemma TurnKeeps(st: Storage, r: Repo, removeUntagged: bool, w: Walk, i: nat, order: seq<Digest>)
    requires WalkOk(st, r, removeUntagged, w) && w.Marking? && i < |w.workers| && CanTurn(st, w.workers[i], order)
    ensures var m := TurnOf(st, r, w, i, order);
      && WalkOk(st, r, removeUntagged, m.0)
      && (m.0.Aborted? || Owed(st, r, removeUntagged, w) == m.1 + Owed(st, r, removeUntagged, m.0))
  {
    var m := TurnOf(st, r, w, i, order);
    if m.0.Marking? {
      TurnOwes(st, w.first, w.workers[i], order);
      UpdateMarks(st, w.first, w.workers, i, m.0.workers[i], m.1);
      if w.first { FirstTurn(st, r, removeUntagged, w, i, order); }
      else { SecondTurn(st, r, removeUntagged, w, i, order); }
    }
  }

  lemma NothingOwed(st: Storage, first: bool, workers: seq<Worker>)
    requires AllDone(workers)
    ensures AllOwedMarks(st, first, workers) == {} && AllOwedRefs(st, workers) == {} && forall d :: !Unread(workers, d)
  { }

  lemma BeginKeeps(st: Storage, r: Repo, removeUntagged: bool, s: Step)
    requires s.Begin? && Enabled(st, r, removeUntagged, Waiting, s)
    ensures var m := Move(st, r, removeUntagged, Waiting, s);
      && WalkOk(st, r, removeUntagged, m.0)
      && (m.0.Aborted? || Owed(st, r, removeUntagged, Waiting) == m.1 + Owed(st, r, removeUntagged, m.0))
  {
    SpawnOwesMarks(st, removeUntagged, s.order);
    SpawnOwesRefs(st, s.order);
    CheckedSpawn(st, r, s.order);
  }

  lemma JoinKeeps(st: Storage, r: Repo, removeUntagged: bool, w: Walk, s: Step)
    requires s.Join? && WalkOk(st, r, removeUntagged, w) && Enabled(st, r, removeUntagged, w, s)
    ensures var m := Move(st, r, removeUntagged, w, s);
      && WalkOk(st, r, removeUntagged, m.0)
      && Owed(st, r, removeUntagged, w) == m.1 + Owed(st, r, removeUntagged, m.0)
  {
    NothingOwed(st, w.first, w.workers);
    if w.first {
      SpawnOwesMarks(st, false, s.order);
      CheckedSpawn(st, r, s.order);
    }
  }

  /**
   Every step keeps a walk right, and what it adds is no longer owed; a walk is aborted only if its repository
   cannot be marked.
   */
  lemma MoveKeeps(st: Storage, r: Repo, removeUntagged: bool, w: Walk, s: Step)
    requires WalkOk(st, r, removeUntagged, w) && Enabled(st, r, removeUntagged, w, s)
    ensures var m := Move(st, r, removeUntagged, w, s);
      && WalkOk(st, r, removeUntagged, m.0)
      && (m.0.Aborted? || Owed(st, r, removeUntagged, w) == m.1 + Owed(st, r, removeUntagged, m.0))
  {
    match s
    case Begin(_, _) => BeginKeeps(st, r, removeUntagged, s);
    case Turn(_, i, order) => TurnKeeps(st, r, removeUntagged, w, i, order);
    case Join(_, _) => JoinKeeps(st, r, removeUntagged, w, s);
  }

  // ---- all walks together ----

  ghost function OwedByAll(st: Storage, removeUntagged: bool, walks: map<string, Walk>): set<Digest>
    requires walks.Keys <= st.repos.Keys
  {
    set n, d | n in walks && d in Owed(st, st.repos[n], removeUntagged, walks[n]) :: d
  }

  ghost predicate SomeAborted(b: Board) {
    exists n :: n in b.walks && b.walks[n].Aborted?
  }

  function Walked(st: Storage): set<string> {
    set n | n in st.repos && st.repos[n].layersDir
  }

  function Start(st: Storage): Board {
    Board({}, map n | n in Walked(st) :: Waiting)
  }

  ghost predicate WalksOk(st: Storage, removeUntagged: bool, walks: map<string, Walk>) {
    walks.Keys == Walked(st) && forall n :: n in walks ==> WalkOk(st, st.repos[n], removeUntagged, walks[n])
  }

  /** Marks and owed marks together are what they were at the start. */
  ghost predicate Conserved(st: Storage, removeUntagged: bool, b: Board)
    requires b.walks.Keys == Walked(st)
  {
    b.marks + OwedByAll(st, removeUntagged, b.walks) == OwedByAll(st, removeUntagged, Start(st).walks)
  }

  ghost predicate Invariant(st: Storage, removeUntagged: bool, b: Board) {
    WalksOk(st, removeUntagged, b.walks) && (SomeAborted(b) || Conserved(st, removeUntagged, b))
  }

  predicate CanStep(st: Storage, removeUntagged: bool, b: Board, s: Step) {
    s.n in b.walks && s.n in st.repos && Enabled(st, st.repos[s.n], removeUntagged, b.walks[s.n], s)
  }

  function Apply(st: Storage, removeUntagged: bool, b: Board, s: Step): Board
    requires CanStep(st, removeUntagged, b, s)
  {
    var m := Move(st, st.repos[s.n], removeUntagged, b.walks[s.n], s);
    Board(b.marks + m.1, b.walks[s.n := m.0])
  }

  lemma OneWalkMoves(st: Storage, removeUntagged: bool, walks: map<string, Walk>, n: string, w: Walk,
                     added: set<Digest>)
    requires walks.Keys <= st.repos.Keys && n in walks
    requires Owed(st, st.repos[n], removeUntagged, walks[n]) == added + Owed(st, st.repos[n], removeUntagged, w)
    ensures OwedByAll(st, removeUntagged, walks) == added + OwedByAll(st, removeUntagged, walks[n := w])
  {
    var next := walks[n := w];
    forall d | d in OwedByAll(st, removeUntagged, walks) ensures d in added + OwedByAll(st, removeUntagged, next) {
      var k :| k in walks && d in Owed(st, st.repos[k], removeUntagged, walks[k]);
      if k != n { assert next[k] == walks[k]; }
      else if d !in added { assert d in Owed(st, st.repos[n], removeUntagged, next[n]); }
    }
    forall d | d in OwedByAll(st, removeUntagged, next) ensures d in OwedByAll(st, removeUntagged, walks) {
      var k :| k in next && d in Owed(st, st.repos[k], removeUntagged, next[k]);
      assert k != n ==> next[k] == walks[k];
    }
    assert forall d :: d in added ==> d in Owed(st, st.repos[n], removeUntagged, walks[n]);
  }

  lemma StepKeepsInvariant(st: Storage, removeUntagged: bool, b: Board, s: Step)
    requires Invariant(st, removeUntagged, b) && CanStep(st, removeUntagged, b, s)
    ensures Invariant(st, removeUntagged, Apply(st, removeUntagged, b, s))
  {
    var w, m := b.walks[s.n], Move(st, st.repos[s.n], removeUntagged, b.walks[s.n], s);
    MoveKeeps(st, st.repos[s.n], removeUntagged, w, s);
    assert WalksOk(st, removeUntagged, b.walks[s.n := m.0]);
    if SomeAborted(b) { AbortedStays(st, removeUntagged, b, s); }
    else if m.0.Aborted? { assert Apply(st, removeUntagged, b, s).walks[s.n].Aborted?; }
    else { ConservedStep(st, removeUntagged, b, s); }
  }

  lemma AbortedStays(st: Storage, removeUntagged: bool, b: Board, s: Step)
    requires SomeAborted(b) && CanStep(st, removeUntagged, b, s)
    ensures SomeAborted(Apply(st, removeUntagged, b, s))
  {
    var n :| n in b.walks && b.walks[n].Aborted?;
    assert Apply(st, removeUntagged, b, s).walks[n].Aborted?;
  }

  lemma ConservedStep(st: Storage, removeUntagged: bool, b: Board, s: Step)
    requires b.walks.Keys == Walked(st) && Conserved(st, removeUntagged, b) && CanStep(st, removeUntagged, b, s)
    requires var r, w := st.repos[s.n], b.walks[s.n];
      var m := Move(st, r, removeUntagged, w, s);
          Owed(st, r, removeUntagged, w) == m.1 + Owed(st, r, removeUntagged, m.0)
    ensures b.walks.Keys == Apply(st, removeUntagged, b, s).walks.Keys &&
      Conserved(st, removeUntagged, Apply(st, removeUntagged, b, s))
  {
    var m := Move(st, st.repos[s.n], removeUntagged, b.walks[s.n], s);
    OneWalkMoves(st, removeUntagged, b.walks, s.n, m.0, m.1);
    assert b.walks[s.n := m.0].Keys == b.walks.Keys;
  }

  ghost predicate Run(st: Storage, removeUntagged: bool, b: Board, steps: seq<Step>, end: Board)
    decreases |steps|
  {
    if steps == [] then b == end
    else
      && CanStep(st, removeUntagged, b, steps[0])
      && Run(st, removeUntagged, Apply(st, removeUntagged, b, steps[0]), steps[1..], end)
  }

  lemma {:induction false} RunKeepsInvariant(st: Storage, removeUntagged: bool, b: Board, steps: seq<Step>, end: Board)
    requires Invariant(st, removeUntagged, b) && Run(st, removeUntagged, b, steps, end)
    ensures Invariant(st, removeUntagged, end)
    decreases |steps|
  {
    if steps != [] {
      StepKeepsInvariant(st, removeUntagged, b, steps[0]);
      RunKeepsInvariant(st, removeUntagged, Apply(st, removeUntagged, b, steps[0]), steps[1..], end);
    }
  }

  ghost predicate AllOver(b: Board) {
    forall n :: n in b.walks ==> b.walks[n].Over?
  }

  /**
   Whatever the schedule, when every walk is over the marks and the deletions are those of the sequential
   mark stage; a walk is aborted only if that stage fails, and if it fails the walks are never all over.
   */
  lemma ParallelMarksAgree(st: Storage, removeUntagged: bool, steps: seq<Step>, end: Board)
    requires Run(st, removeUntagged, Start(st), steps, end)
    ensures SomeAborted(end) ==> !MarksOk(st, removeUntagged)
    ensures AllOver(end) ==>
      && MarksOk(st, removeUntagged) && end.marks == Marks(st, removeUntagged)
      && forall n :: n in st.repos && st.repos[n].layersDir ==>
          n in end.walks && end.walks[n].dels == Dels(st, n, removeUntagged)
  {
    StartOk(st, removeUntagged);
    RunKeepsInvariant(st, removeUntagged, Start(st), steps, end);
    if AllOver(end) {
      AllOverOk(st, removeUntagged, end);
      ExpectedIsMarks(st, removeUntagged);
    }
  }

  lemma StartOk(st: Storage, removeUntagged: bool)
    ensures Invariant(st, removeUntagged, Start(st))
  { }

  lemma AllOverOk(st: Storage, removeUntagged: bool, b: Board)
    requires Invariant(st, removeUntagged, b) && AllOver(b)
    ensures MarksOk(st, removeUntagged) && b.marks == OwedByAll(st, removeUntagged, Start(st).walks)
  {
    assert OwedByAll(st, removeUntagged, b.walks) == {};
    forall n | n in st.repos && st.repos[n].layersDir ensures MarkRepo(st, st.repos[n], removeUntagged).Marked? {
      assert n in b.walks;
    }
  }

  lemma ExpectedIsMarks(st: Storage, removeUntagged: bool)
    requires MarksOk(st, removeUntagged)
    ensures OwedByAll(st, removeUntagged, Start(st).walks) == Marks(st, removeUntagged)
  {
    var walks := Start(st).walks;
    forall n | n in walks ensures Owed(st, st.repos[n], removeUntagged, walks[n]) ==
        MarkRepo(st, st.repos[n], removeUntagged).marks { }
  }

  /** No schedule gets stuck: until every walk is over or one is aborted, some step can be taken. */
  lemma SomeStepPossible(st: Storage, removeUntagged: bool, b: Board) returns (s: Step)
    requires Invariant(st, removeUntagged, b) && !SomeAborted(b) && !AllOver(b)
    ensures CanStep(st, removeUntagged, b, s)
  {
    var n :| n in b.walks && !b.walks[n].Over?;
    var r, w := st.repos[n], b.walks[n];
    if w.Waiting? {
      var order := InSomeOrder(if removeUntagged then Tagged(st, r) else Enumerated(st, r));
      s := Begin(n, order);
    } else if AllDone(w.workers) {
      var order := InSomeOrder(w.referenced);
      s := Join(n, order);
    } else {
      var i :| 0 <= i < |w.workers| && !(w.workers[i].Adding? && w.workers[i].left == []);
      var order := InSomeOrder(if w.workers[i].Fetching? then References(st, w.workers[i].digest) else {});
      s := Turn(n, i, order);
    }
  }

  // ---- every schedule ends ----

  /** How far a walk is from its end: by phase, by manifests not yet read, and by references not yet added. */
  function PhasesLeft(w: Walk): nat {
    match w
    case Waiting => 3
    case Marking(first, _, _, _) => if first then 2 else 1
    case Over(_) => 0
    case Aborted => 0
  }

  function UnreadBy(ws: seq<Worker>): nat {
    if ws == [] then 0 else (if ws[0].Starting? then 2 else if ws[0].Fetching? then 1 else 0) + UnreadBy(ws[1..])
  }

  function UnaddedBy(ws: seq<Worker>): nat {
    if ws == [] then 0 else (if ws[0].Adding? then |ws[0].left| else 0) + UnaddedBy(ws[1..])
  }

  function ReadsLeft(w: Walk): nat {
    if w.Marking? then UnreadBy(w.workers) else 0
  }

  function AddsLeft(w: Walk): nat {
    if w.Marking? then UnaddedBy(w.workers) else 0
  }

  lemma {:induction false} WorkerTurns(ws: seq<Worker>, i: nat, w: Worker)
    requires i < |ws|
    ensures var next, one, two := ws[i := w], [ws[i]], [w];
      && UnreadBy(next) - UnreadBy(ws) == UnreadBy(two) - UnreadBy(one)
      && UnaddedBy(next) - UnaddedBy(ws) == UnaddedBy(two) - UnaddedBy(one)
    decreases i
  {
    var next := ws[i := w];
    assert [ws[i]][1..] == [] && [w][1..] == [];
    if i == 0 { assert next[1..] == ws[1..]; }
    else {
      assert next[1..] == ws[1..][i - 1 := w] && next[0] == ws[0];
      WorkerTurns(ws[1..], i - 1, w);
    }
  }

  /** In lexicographic order. */
  predicate Nearer(w: Walk, v: Walk) {
    || PhasesLeft(w) < PhasesLeft(v)
    || (PhasesLeft(w) == PhasesLeft(v)
        && (ReadsLeft(w) < ReadsLeft(v) || (ReadsLeft(w) == ReadsLeft(v) && AddsLeft(w) < AddsLeft(v))))
  }

  /** Every step brings its walk nearer to the end, however many references a manifest turns out to have. */
  lemma MoveIsNearer(st: Storage, r: Repo, removeUntagged: bool, w: Walk, s: Step)
    requires Enabled(st, r, removeUntagged, w, s)
    ensures Nearer(Move(st, r, removeUntagged, w, s).0, w)
  {
    if s.Turn? {
      var next := Move(st, r, removeUntagged, w, s).0;
      if next.Marking? {
        WorkerTurns(w.workers, s.i, next.workers[s.i]);
        assert next.workers == w.workers[s.i := next.workers[s.i]];
        assert [w.workers[s.i]][1..] == [] && [next.workers[s.i]][1..] == [];
      }
    }
  }

  function Total(names: seq<string>, walks: map<string, Walk>, f: Walk -> nat): nat
    requires forall i :: 0 <= i < |names| ==> names[i] in walks
  {
    if names == [] then 0 else f(walks[names[0]]) + Total(names[1..], walks, f)
  }

  lemma {:induction false} TotalMoves(names: seq<string>, walks: map<string, Walk>, f: Walk -> nat, n: string, w: Walk)
    requires (forall i :: 0 <= i < |names| ==> names[i] in walks) && n in walks
    ensures f(w) == f(walks[n]) ==> Total(names, walks[n := w], f) == Total(names, walks, f)
    ensures f(w) <= f(walks[n]) ==> Total(names, walks[n := w], f) <= Total(names, walks, f)
    ensures f(w) < f(walks[n]) && n in names ==> Total(names, walks[n := w], f) < Total(names, walks, f)
    decreases |names|
  {
    if names != [] {
      assert forall i :: 0 <= i < |names| - 1 ==> names[1..][i] == names[i + 1];
      TotalMoves(names[1..], walks, f, n, w);
    }
  }

  /** The boards that a schedule goes through; it stays where its next step is not possible. */
  ghost predicate Follows(st: Storage, removeUntagged: bool, boards: nat -> Board, schedule: nat -> Step) {
    forall k: nat :: CanStep(st, removeUntagged, boards(k), schedule(k)) ==>
      boards(k + 1) == Apply(st, removeUntagged, boards(k), schedule(k))
  }

  ghost predicate Listing(names: seq<string>, b: Board) {
    forall n :: n in names <==> n in b.walks
  }

  /** Every schedule comes to a step that is not possible. */
  lemma {:induction false} SchedulesEnd(st: Storage, removeUntagged: bool, boards: nat -> Board, schedule: nat -> Step,
                                        names: seq<string>, k: nat) returns (n: nat)
    requires Follows(st, removeUntagged, boards, schedule) && Listing(names, boards(k))
    ensures n >= k && !CanStep(st, removeUntagged, boards(n), schedule(n))
    ensures forall i :: k <= i < n ==> CanStep(st, removeUntagged, boards(i), schedule(i))
    decreases Total(names, boards(k).walks, PhasesLeft), Total(names, boards(k).walks, ReadsLeft),
              Total(names, boards(k).walks, AddsLeft)
  {
    var b, s := boards(k), schedule(k);
    if CanStep(st, removeUntagged, b, s) {
      var w := Move(st, st.repos[s.n], removeUntagged, b.walks[s.n], s).0;
      MoveIsNearer(st, st.repos[s.n], removeUntagged, b.walks[s.n], s);
      TotalMoves(names, b.walks, PhasesLeft, s.n, w);
      TotalMoves(names, b.walks, ReadsLeft, s.n, w);
      TotalMoves(names, b.walks, AddsLeft, s.n, w);
      assert boards(k + 1).walks == b.walks[s.n := w];
      n := SchedulesEnd(st, removeUntagged, boards, schedule, names, k + 1);
    } else { n := k; }
  }

  lemma {:induction false} ReachedOk(st: Storage, removeUntagged: bool, boards: nat -> Board, schedule: nat -> Step,
                                     n: nat)
    requires Follows(st, removeUntagged, boards, schedule) && boards(0) == Start(st)
    requires forall i :: 0 <= i < n ==> CanStep(st, removeUntagged, boards(i), schedule(i))
    ensures Invariant(st, removeUntagged, boards(n))
    decreases n
  {
    if n == 0 { StartOk(st, removeUntagged); }
    else {
      ReachedOk(st, removeUntagged, boards, schedule, n - 1);
      StepKeepsInvariant(st, removeUntagged, boards(n - 1), schedule(n - 1));
    }
  }

  /** The step is possible if any is. */
  ghost predicate Diligent(st: Storage, removeUntagged: bool, b: Board, s: Step) {
    (exists t :: CanStep(st, removeUntagged, b, t)) ==> CanStep(st, removeUntagged, b, s)
  }

  /**
   A scheduler that takes a possible step as long as there is one comes to an end, and then
   every walk is over or one is aborted.
   */
  lemma MarkingEnds(st: Storage, removeUntagged: bool, boards: nat -> Board, schedule: nat -> Step) returns (n: nat)
    requires Follows(st, removeUntagged, boards, schedule) && boards(0) == Start(st)
    requires forall k: nat :: Diligent(st, removeUntagged, boards(k), schedule(k))
    ensures AllOver(boards(n)) || SomeAborted(boards(n))
  {
    var names := InSomeOrder(Walked(st));
    assert forall x :: x in names <==> x in Elements(names);
    n := SchedulesEnd(st, removeUntagged, boards, schedule, names, 0);
    ReachedOk(st, removeUntagged, boards, schedule, n);
    assert Diligent(st, removeUntagged, boards(n), schedule(n));
    if !AllOver(boards(n)) && !SomeAborted(boards(n)) { var s := SomeStepPossible(st, removeUntagged, boards(n)); }
  }

  lemma {:induction false} InSomeOrder(ds: set<Digest>) returns (order: seq<Digest>)
    ensures Elements(order) == ds
    decreases |ds|
  {
    if ds == {} { order := []; }
    else {
      var d :| d in ds;
      var rest := InSomeOrder(ds - {d});
      order := [d] + rest;
      assert forall x :: x in order <==> x == d || x in rest;
      assert ds == {d} + Elements(rest);
    }
  }
}
