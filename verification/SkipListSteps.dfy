/** One writer inserting into a skip list while readers search it, one load or store at a time.

    Each action is a single access to shared memory. A reader may have observed any height, so that a
    stale one, or one newer than the links it goes with, is covered. */
module SkipListSteps {
  import opened InternalKeys
  import opened SkipListMemory

  datatype Writer =
    | Idle
    | Finding(key: Key, x: nat, level: nat, prev: seq<nat>)
    | Found(key: Key, prev: seq<nat>)
    | Raised(key: Key, height: nat, prev: seq<nat>)
    | Filling(node: nat, i: nat, prev: seq<nat>)
    | Publishing(node: nat, i: nat, prev: seq<nat>)

  /** A search in progress, or the nodes on both sides of its target when its last load was done. */
  datatype Reader =
    | Searching(target: Target, x: nat, level: nat)
    | Returned(target: Target, before: nat, next: Option<nat>)

  datatype State = State(nodes: seq<Node>, maxHeight: nat, writer: Writer, readers: map<nat, Reader>)

  datatype Action =
    | StartInsert(key: Key)
    | WriterLoad                          // a load of FindGreaterOrEqual
    | ChooseHeight(height: nat)           // RandomHeight and the store to max_height_
    | Allocate(links: seq<Option<nat>>)   // NewNode, with whatever its memory held
    | WriterFill                          // NoBarrier_SetNext on the new node
    | WriterPublish                       // SetNext on its predecessor
    | StartSearch(reader: nat, target: Target, height: nat)
    | ReaderLoad(reader: nat)

  // ----- what holds in every state -----

  ghost predicate PrevOk(a: seq<Node>, c: seq<nat>, key: Key, y: nat) {
    exists p :: 0 <= p < |c| && c[p] == y && Splittable(a, c, key, p)
  }

  ghost predicate IsNewKey(a: seq<Node>, cs: seq<seq<nat>>, key: Key) {
    |cs| > 0 && forall i :: 0 < i < |cs[0]| ==> cs[0][i] < |a| && a[cs[0][i]].key != key
  }

  ghost predicate PrevsOk(a: seq<Node>, cs: seq<seq<nat>>, key: Key, prev: seq<nat>, lo: nat, hi: nat) {
    && |prev| == MAX_HEIGHT == |cs|
    && forall l :: lo <= l < hi && l < MAX_HEIGHT ==> PrevOk(a, cs[l], key, prev[l])
  }

  ghost predicate UnlinkedFrom(cs: seq<seq<nat>>, node: nat, i: nat) {
    forall l :: i <= l < |cs| ==> node !in cs[l]
  }

  ghost predicate LinkingOk(s: State, cs: seq<seq<nat>>, node: nat, i: nat, prev: seq<nat>) {
    && node < |s.nodes| && i < |s.nodes[node].next| <= s.maxHeight
    && PrevsOk(s.nodes, cs, s.nodes[node].key, prev, i, |s.nodes[node].next|)
    && UnlinkedFrom(cs, node, i)
    && (0 < i <= |cs| ==> node in cs[i - 1])
    && (i == 0 ==> IsNewKey(s.nodes, cs, s.nodes[node].key))
  }

  ghost predicate WriterOk(s: State, cs: seq<seq<nat>>) {
    match s.writer
    case Idle => true
    case Finding(key, x, level, prev) =>
      && level < s.maxHeight
      && IsNewKey(s.nodes, cs, key)
      && Standing(s.nodes, cs, At(key), x, level)
      && PrevsOk(s.nodes, cs, key, prev, level + 1, s.maxHeight)
    case Found(key, prev) =>
      IsNewKey(s.nodes, cs, key) && PrevsOk(s.nodes, cs, key, prev, 0, s.maxHeight)
    case Raised(key, height, prev) =>
      1 <= height <= s.maxHeight && IsNewKey(s.nodes, cs, key) && PrevsOk(s.nodes, cs, key, prev, 0, height)
    case Filling(node, i, prev) =>
      LinkingOk(s, cs, node, i, prev)
    case Publishing(node, i, prev) =>
      && LinkingOk(s, cs, node, i, prev)
      && i < MAX_HEIGHT && i < |prev| && prev[i] < |s.nodes| && i < |s.nodes[prev[i]].next|
      && s.nodes[node].next[i] == s.nodes[prev[i]].next[i]
  }

  ghost predicate ReaderOk(a: seq<Node>, cs: seq<seq<nat>>, r: Reader) {
    r.Searching? ==> Standing(a, cs, r.target, r.x, r.level)
  }

  ghost predicate HeightOk(s: State, cs: seq<seq<nat>>) {
    && 1 <= s.maxHeight <= MAX_HEIGHT
    && forall l :: s.maxHeight <= l < |cs| ==> cs[l] == [HEAD]
  }

  /** The memory holds the lists `cs`, and everyone at work on them is where they should be. */
  ghost predicate Inv(s: State, cs: seq<seq<nat>>) {
    && Layered(s.nodes, cs)
    && HeightOk(s, cs)
    && WriterOk(s, cs)
    && forall r :: r in s.readers ==> ReaderOk(s.nodes, cs, s.readers[r])
  }

  // ----- the steps -----

  predicate Enabled(s: State, a: Action) {
    match a
    case StartInsert(key) => s.writer.Idle?
    case WriterLoad => s.writer.Finding?
    case ChooseHeight(height) => s.writer.Found? && 1 <= height <= MAX_HEIGHT
    case Allocate(links) => s.writer.Raised? && |links| == s.writer.height
    case WriterFill => s.writer.Filling?
    case WriterPublish => s.writer.Publishing?
    case StartSearch(r, target, height) => 1 <= height <= MAX_HEIGHT
    case ReaderLoad(r) => r in s.readers && s.readers[r].Searching?
  }

  /** The caller's duty: no node on the list compares equal to an inserted key. */
  ghost predicate KeyIsNew(s: State, cs: seq<seq<nat>>, a: Action) {
    a.StartInsert? ==> IsNewKey(s.nodes, cs, a.key)
  }

  function InitialNodes(): seq<Node> {
    [Node(0, seq(MAX_HEIGHT, _ => None))]
  }

  function InitialState(): State {
    State(InitialNodes(), 1, Idle, map[])
  }

  function FindingStep(s: State, key: Key, x: nat, level: nat, prev: seq<nat>): Writer
    requires |prev| == MAX_HEIGHT && level < MAX_HEIGHT && x < |s.nodes| && level < |s.nodes[x].next| && RefInBounds(s.nodes, s.nodes[x].next[level])
  {
    var next := s.nodes[x].next[level];
    if RefIsBefore(s.nodes, next, At(key)) then Finding(key, next.value, level, prev)
    else if level == 0 then Found(key, prev[0 := x])
    else Finding(key, x, level - 1, prev[level := x])
  }

  function ReaderStep(a: seq<Node>, r: Reader): Reader
    requires r.Searching? && r.x < |a| && r.level < |a[r.x].next| && RefInBounds(a, a[r.x].next[r.level])
  {
    var next := a[r.x].next[r.level];
    if RefIsBefore(a, next, r.target) then r.(x := next.value)
    else if r.level == 0 then Returned(r.target, r.x, next)
    else r.(level := r.level - 1)
  }

  function Heads(prev: seq<nat>, lo: nat, hi: nat): seq<nat>
    requires |prev| == MAX_HEIGHT
  {
    seq(MAX_HEIGHT, l requires 0 <= l < MAX_HEIGHT => if lo <= l < hi then HEAD else prev[l])
  }

  function Do(s: State, a: Action, ghost cs: seq<seq<nat>>): State
    requires Inv(s, cs) && Enabled(s, a)
  {
    match a
    case StartInsert(key) =>
      s.(writer := Finding(key, HEAD, s.maxHeight - 1, seq(MAX_HEIGHT, _ => HEAD)))
    case WriterLoad =>
      LoadInBounds(s.nodes, cs, At(s.writer.key), s.writer.x, s.writer.level);
      s.(writer := FindingStep(s, s.writer.key, s.writer.x, s.writer.level, s.writer.prev))
    case ChooseHeight(h) =>
      var w := s.writer;
      if h > s.maxHeight then s.(maxHeight := h, writer := Raised(w.key, h, Heads(w.prev, s.maxHeight, h)))
      else s.(writer := Raised(w.key, h, w.prev))
    case Allocate(links) =>
      s.(nodes := s.nodes + [Node(s.writer.key, links)], writer := Filling(|s.nodes|, 0, s.writer.prev))
    case WriterFill =>
      var w := s.writer;
      PrevInBounds(s, cs, w.node, w.i, w.prev);
      s.(nodes := SetNext(s.nodes, w.node, w.i, s.nodes[w.prev[w.i]].next[w.i]), writer := Publishing(w.node, w.i, w.prev))
    case WriterPublish =>
      var w := s.writer;
      s.(nodes := SetNext(s.nodes, w.prev[w.i], w.i, Some(w.node)),
         writer := if w.i + 1 == |s.nodes[w.node].next| then Idle else Filling(w.node, w.i + 1, w.prev))
    case StartSearch(r, target, height) =>
      s.(readers := s.readers[r := Searching(target, HEAD, height - 1)])
    case ReaderLoad(r) =>
      LoadInBounds(s.nodes, cs, s.readers[r].target, s.readers[r].x, s.readers[r].level);
      s.(readers := s.readers[r := ReaderStep(s.nodes, s.readers[r])])
  }

  lemma LoadInBounds(a: seq<Node>, cs: seq<seq<nat>>, t: Target, x: nat, level: nat)
    requires Layered(a, cs) && Standing(a, cs, t, x, level)
    ensures level < MAX_HEIGHT && level < |a[x].next| && RefInBounds(a, a[x].next[level])
  {
    var p := LinkOf(a, cs, level, x);
  }

  lemma PrevInBounds(s: State, cs: seq<seq<nat>>, node: nat, i: nat, prev: seq<nat>)
    requires Layered(s.nodes, cs) && HeightOk(s, cs) && LinkingOk(s, cs, node, i, prev)
    ensures i < MAX_HEIGHT == |prev| && prev[i] in cs[i]
    ensures prev[i] < |s.nodes| && i < |s.nodes[prev[i]].next|
  {
    assert PrevOk(s.nodes, cs[i], s.nodes[node].key, prev[i]);
    var p := LinkOf(s.nodes, cs, i, prev[i]);
  }

  // ----- what memory changes leave alone -----

  ghost predicate Grows(a: seq<Node>, cs: seq<seq<nat>>, b: seq<Node>, ds: seq<seq<nat>>) {
    && SameKeys(a, b)
    && |ds| == |cs|
    && forall l :: 0 <= l < |cs| ==> Sublist(cs[l], ds[l])
  }

  ghost predicate SameKeys(a: seq<Node>, b: seq<Node>) {
    |a| <= |b| && forall i :: 0 <= i < |a| ==> b[i].key == a[i].key
  }

  lemma ReadersKept(a: seq<Node>, cs: seq<seq<nat>>, b: seq<Node>, ds: seq<seq<nat>>, rs: map<nat, Reader>)
    requires Grows(a, cs, b, ds)
    requires forall r :: r in rs ==> ReaderOk(a, cs, rs[r])
    ensures forall r :: r in rs ==> ReaderOk(b, ds, rs[r])
  {
    forall r | r in rs && rs[r].Searching? ensures Standing(b, ds, rs[r].target, rs[r].x, rs[r].level) {
      assert ReaderOk(a, cs, rs[r]);
      var p := Place(cs[rs[r].level], rs[r].x);
      assert Sublist(cs[rs[r].level], ds[rs[r].level]);
    }
  }

  lemma PrevKept(a: seq<Node>, b: seq<Node>, c: seq<nat>, key: Key, y: nat)
    requires SameKeys(a, b) && PrevOk(a, c, key, y)
    ensures PrevOk(b, c, key, y)
  {
    var p :| 0 <= p < |c| && c[p] == y && Splittable(a, c, key, p);
    assert Splittable(b, c, key, p);
  }

  lemma PrevsKept(a: seq<Node>, cs: seq<seq<nat>>, b: seq<Node>, ds: seq<seq<nat>>, key: Key, prev: seq<nat>, lo: nat, hi: nat)
    requires SameKeys(a, b) && |ds| == |cs|
    requires PrevsOk(a, cs, key, prev, lo, hi)
    requires forall l :: lo <= l < hi && l < |cs| ==> ds[l] == cs[l]
    ensures PrevsOk(b, ds, key, prev, lo, hi)
  {
    forall l | lo <= l < hi && l < MAX_HEIGHT ensures PrevOk(b, ds[l], key, prev[l]) {
      PrevKept(a, b, cs[l], key, prev[l]);
    }
  }

  lemma NewKeyKept(a: seq<Node>, b: seq<Node>, cs: seq<seq<nat>>, key: Key)
    requires SameKeys(a, b) && IsNewKey(a, cs, key)
    ensures IsNewKey(b, cs, key)
  {
  }

  lemma {:induction false} InBottom(cs: seq<seq<nat>>, l: nat, y: nat)
    requires l < |cs| && y in cs[l]
    requires forall m :: 0 < m < |cs| ==> Sublist(cs[m], cs[m - 1])
    ensures y in cs[0]
  {
    if l > 0 {
      var i := Place(cs[l], y);
      assert Sublist(cs[l], cs[l - 1]);
      InBottom(cs, l - 1, y);
    }
  }

  /** A search for a new key ends at the node to link it after. */
  lemma BracketsGivePrev(a: seq<Node>, cs: seq<seq<nat>>, l: nat, key: Key, x: nat, next: Option<nat>)
    requires Layered(a, cs) && l < MAX_HEIGHT && IsNewKey(a, cs, key)
    requires Brackets(a, cs[l], At(key), x, next)
    ensures PrevOk(a, cs[l], key, x)
  {
    var c := cs[l];
    var p :| IsSplit(a, c, At(key), p, x, next);
    forall i | 0 < i < |c| ensures a[c[i]].key != key {
      assert IsChain(a, l, c) && IsChain(a, 0, cs[0]);
      InBottom(cs, l, c[i]);
      var j := Place(cs[0], c[i]);
      assert j > 0;
    }
    assert Splittable(a, c, key, p);
  }

  // ----- the writer's steps -----

  lemma StartInsertKeeps(s: State, cs: seq<seq<nat>>, a: Action)
    requires Inv(s, cs) && a.StartInsert? && Enabled(s, a) && KeyIsNew(s, cs, a)
    ensures Inv(Do(s, a, cs), cs)
  {
    HeadStands(s.nodes, cs, At(a.key), s.maxHeight - 1);
  }

  lemma HeadStands(a: seq<Node>, cs: seq<seq<nat>>, t: Target, level: nat)
    requires Layered(a, cs) && level < MAX_HEIGHT
    ensures Standing(a, cs, t, HEAD, level)
  {
    assert IsChain(a, level, cs[level]);
    assert cs[level][0] == HEAD;
  }

  lemma WriterLoadKeeps(s: State, cs: seq<seq<nat>>)
    requires Inv(s, cs) && Enabled(s, WriterLoad)
    ensures Inv(Do(s, WriterLoad, cs), cs)
  {
    hide Layered, IsNewKey, Brackets, PrevOk, ReaderOk;
    var w := s.writer;
    LoadInBounds(s.nodes, cs, At(w.key), w.x, w.level);
    SearchStep(s.nodes, cs, At(w.key), w.x, w.level);
    var next := s.nodes[w.x].next[w.level];
    assert |cs| == MAX_HEIGHT;
    if !RefIsBefore(s.nodes, next, At(w.key)) {
      BracketsGivePrev(s.nodes, cs, w.level, w.key, w.x, next);
      PrevExtended(s.nodes, cs, w.key, w.prev, w.level, s.maxHeight, w.x);
    }
  }

  lemma PrevExtended(a: seq<Node>, cs: seq<seq<nat>>, key: Key, prev: seq<nat>, l: nat, hi: nat, x: nat)
    requires |cs| == MAX_HEIGHT && PrevsOk(a, cs, key, prev, l + 1, hi) && l < MAX_HEIGHT && PrevOk(a, cs[l], key, x)
    ensures PrevsOk(a, cs, key, prev[l := x], l, hi)
  {
  }

  lemma ChooseHeightKeeps(s: State, cs: seq<seq<nat>>, a: Action)
    requires Inv(s, cs) && a.ChooseHeight? && Enabled(s, a)
    ensures Inv(Do(s, a, cs), cs)
  {
    hide ReaderOk, IsNewKey;
    var w := s.writer;
    if a.height > s.maxHeight {
      assert IsChain(s.nodes, 0, cs[0]);
      forall l | 0 <= l < a.height ensures PrevOk(s.nodes, cs[l], w.key, Heads(w.prev, s.maxHeight, a.height)[l]) {
        if l >= s.maxHeight {
          assert Splittable(s.nodes, cs[l], w.key, 0);
        }
      }
    }
  }

  lemma AllocateKeeps(s: State, cs: seq<seq<nat>>, a: Action)
    requires Inv(s, cs) && a.Allocate? && Enabled(s, a)
    ensures Inv(Do(s, a, cs), cs)
  {
    hide ReaderOk, PrevOk, Layered;
    var w := s.writer;
    var n := Node(w.key, a.links);
    var b := s.nodes + [n];
    AllocateUnseen(s.nodes, cs, n);
    assert SameKeys(s.nodes, b);
    SublistRefl(cs);
    ReadersKept(s.nodes, cs, b, cs, s.readers);
    PrevsKept(s.nodes, cs, b, cs, w.key, w.prev, 0, w.height);
    NewKeyKept(s.nodes, b, cs, w.key);
    assert |cs| == MAX_HEIGHT;
  }

  lemma SublistRefl(cs: seq<seq<nat>>)
    ensures forall l :: 0 <= l < |cs| ==> Sublist(cs[l], cs[l])
  {
  }

  lemma WriterFillKeeps(s: State, cs: seq<seq<nat>>)
    requires Inv(s, cs) && Enabled(s, WriterFill)
    ensures Inv(Do(s, WriterFill, cs), cs)
  {
    hide ReaderOk, PrevOk, Layered;
    var w := s.writer;
    PrevInBounds(s, cs, w.node, w.i, w.prev);
    var r := s.nodes[w.prev[w.i]].next[w.i];
    var b := SetNext(s.nodes, w.node, w.i, r);
    assert |cs| == MAX_HEIGHT;
    StoreUnseen(s.nodes, cs, w.node, w.i, r);
    SublistRefl(cs);
    ReadersKept(s.nodes, cs, b, cs, s.readers);
    PrevsKept(s.nodes, cs, b, cs, s.nodes[w.node].key, w.prev, w.i, |s.nodes[w.node].next|);
  }

  /** Publishing the node on one level: where that level's list grows, and only there. */
  lemma WriterPublishKeeps(s: State, cs: seq<seq<nat>>) returns (p: nat)
    requires Inv(s, cs) && Enabled(s, WriterPublish)
    ensures s.writer.i < |cs| && p < |cs[s.writer.i]| && s.writer.node < |s.nodes|
    ensures Splittable(s.nodes, cs[s.writer.i], s.nodes[s.writer.node].key, p)
    ensures Inv(Do(s, WriterPublish, cs), cs[s.writer.i := Spliced(cs[s.writer.i], p, s.writer.node)])
  {
    hide ReaderOk, PrevOk, Layered, Splittable;
    var w := s.writer;
    var l := w.i;
    PrevInBounds(s, cs, w.node, l, w.prev);
    p := PrevPlace(s.nodes, cs[l], s.nodes[w.node].key, w.prev[l]);
    var ds := cs[l := Spliced(cs[l], p, w.node)];
    var b := SetNext(s.nodes, w.prev[l], l, Some(w.node));
    PublishSplices(s.nodes, cs, l, p, w.node);
    SplicedKeeps(cs[l], p, w.node);
    SublistRefl(cs);
    ReadersKept(s.nodes, cs, b, ds, s.readers);
    PrevsKept(s.nodes, cs, b, ds, s.nodes[w.node].key, w.prev, l + 1, |s.nodes[w.node].next|);
  }

  lemma PrevPlace(a: seq<Node>, c: seq<nat>, key: Key, y: nat) returns (p: nat)
    requires PrevOk(a, c, key, y)
    ensures p < |c| && c[p] == y && Splittable(a, c, key, p)
  {
    p :| 0 <= p < |c| && c[p] == y && Splittable(a, c, key, p);
  }

  // ----- the readers' steps -----

  lemma StartSearchKeeps(s: State, cs: seq<seq<nat>>, a: Action)
    requires Inv(s, cs) && a.StartSearch? && Enabled(s, a)
    ensures Inv(Do(s, a, cs), cs)
  {
    HeadStands(s.nodes, cs, a.target, a.height - 1);
  }

  /** A load keeps the reader on course; when it is the last one, the reader has the two
      neighbours of its target in the bottom list as it is at that load. */
  lemma ReaderLoadKeeps(s: State, cs: seq<seq<nat>>, r: nat)
    requires Inv(s, cs) && Enabled(s, ReaderLoad(r))
    ensures Inv(Do(s, ReaderLoad(r), cs), cs)
    ensures var after := Do(s, ReaderLoad(r), cs).readers[r];
            after.target == s.readers[r].target
            && (after.Returned? ==> Brackets(s.nodes, cs[0], after.target, after.before, after.next))
  {
    hide Layered, Brackets, PrevOk, IsNewKey, UnlinkedFrom;
    var q := s.readers[r];
    assert ReaderOk(s.nodes, cs, q);
    LoadInBounds(s.nodes, cs, q.target, q.x, q.level);
    SearchStep(s.nodes, cs, q.target, q.x, q.level);
  }

  // ----- every step -----

  /** The lists a step leaves behind: one of them may have gained the writer's node. */
  ghost predicate ListsAfter(s: State, cs: seq<seq<nat>>, a: Action, ds: seq<seq<nat>>) {
    if a.WriterPublish? && s.writer.Publishing? then
      && s.writer.i < |cs| && s.writer.node < |s.nodes|
      && exists p :: 0 <= p < |cs[s.writer.i]| && Splittable(s.nodes, cs[s.writer.i], s.nodes[s.writer.node].key, p)
                  && ds == cs[s.writer.i := Spliced(cs[s.writer.i], p, s.writer.node)]
    else ds == cs
  }

  lemma StepKeeps(s: State, cs: seq<seq<nat>>, a: Action) returns (ds: seq<seq<nat>>)
    requires Inv(s, cs) && Enabled(s, a) && KeyIsNew(s, cs, a)
    ensures Inv(Do(s, a, cs), ds) && ListsAfter(s, cs, a, ds)
  {
    hide Inv;
    ds := cs;
    match a
    case StartInsert(_) => StartInsertKeeps(s, cs, a);
    case WriterLoad => WriterLoadKeeps(s, cs);
    case ChooseHeight(_) => ChooseHeightKeeps(s, cs, a);
    case Allocate(_) => AllocateKeeps(s, cs, a);
    case WriterFill => WriterFillKeeps(s, cs);
    case WriterPublish =>
      var p := WriterPublishKeeps(s, cs);
      ds := cs[s.writer.i := Spliced(cs[s.writer.i], p, s.writer.node)];
    case StartSearch(_, _, _) => StartSearchKeeps(s, cs, a);
    case ReaderLoad(r) => ReaderLoadKeeps(s, cs, r);
  }

  // ----- whole runs -----

  const NO_LISTS: seq<seq<nat>> := seq(MAX_HEIGHT, _ => [HEAD])

  lemma InitHolds()
    ensures Inv(InitialState(), NO_LISTS)
  {
    forall l | 0 <= l < MAX_HEIGHT ensures IsChain(InitialState().nodes, l, NO_LISTS[l]) {}
  }

  /** The memory after a schedule, with the lists its links form; an action that is not enabled does nothing. */
  ghost function Exec(schedule: seq<Action>): (r: (State, seq<seq<nat>>))
    ensures Inv(r.0, r.1)
  {
    if schedule == [] then InitHolds(); (InitialState(), NO_LISTS)
    else
      var n := |schedule| - 1;
      var (s, cs) := Exec(schedule[..n]);
      var a := schedule[n];
      if Enabled(s, a) && KeyIsNew(s, cs, a) then
        StepHasLists(s, cs, a);
        var ds :| Inv(Do(s, a, cs), ds) && ListsAfter(s, cs, a, ds);
        (Do(s, a, cs), ds)
      else (s, cs)
  }

  lemma StepHasLists(s: State, cs: seq<seq<nat>>, a: Action)
    requires Inv(s, cs) && Enabled(s, a) && KeyIsNew(s, cs, a)
    ensures exists ds :: Inv(Do(s, a, cs), ds) && ListsAfter(s, cs, a, ds)
  {
    var ds := StepKeeps(s, cs, a);
  }

  ghost predicate Takes(schedule: seq<Action>, i: nat) {
    && i < |schedule|
    && var (s, cs) := Exec(schedule[..i]);
       Enabled(s, schedule[i]) && KeyIsNew(s, cs, schedule[i])
  }

  /** The keys a reader can find: those on the bottom list. */
  ghost function Contents(s: State, cs: seq<seq<nat>>): set<Key>
    requires Inv(s, cs)
  {
    BottomInBounds(s, cs);
    Keys(s.nodes, cs[0])
  }

  lemma BottomInBounds(s: State, cs: seq<seq<nat>>)
    requires Inv(s, cs)
    ensures |cs| == MAX_HEIGHT && forall i :: 0 <= i < |cs[0]| ==> cs[0][i] < |s.nodes|
  {
    assert IsChain(s.nodes, 0, cs[0]);
  }

  /** The one step that changes what readers can find is the store that links a node on the bottom
      level; it adds exactly the key that is being inserted. */
  lemma StepContents(s: State, cs: seq<seq<nat>>, a: Action, ds: seq<seq<nat>>)
    requires Inv(s, cs) && Enabled(s, a) && Inv(Do(s, a, cs), ds) && ListsAfter(s, cs, a, ds)
    ensures Contents(Do(s, a, cs), ds) ==
            Contents(s, cs) + if a.WriterPublish? && s.writer.i == 0 then {s.nodes[s.writer.node].key} else {}
  {
    var t := Do(s, a, cs);
    BottomInBounds(s, cs);
    BottomInBounds(t, ds);
    StepKeepsKeys(s, cs, a);
    hide Inv, Do, SameKeys, Keys;
    if a.WriterPublish? && s.writer.i == 0 {
      var w := s.writer;
      var p :| 0 <= p < |cs[0]| && Splittable(s.nodes, cs[0], s.nodes[w.node].key, p) && ds == cs[0 := Spliced(cs[0], p, w.node)];
      SplicedKeys(s.nodes, cs[0], p, w.node);
      SameKeysSameSet(s.nodes, t.nodes, ds[0]);
    } else {
      assert ds[0] == cs[0];
      SameKeysSameSet(s.nodes, t.nodes, cs[0]);
    }
  }

  lemma StepKeepsKeys(s: State, cs: seq<seq<nat>>, a: Action)
    requires Inv(s, cs) && Enabled(s, a)
    ensures SameKeys(s.nodes, Do(s, a, cs).nodes)
  {
  }

  lemma SameKeysSameSet(a: seq<Node>, b: seq<Node>, c: seq<nat>)
    requires SameKeys(a, b) && forall i :: 0 <= i < |c| ==> c[i] < |a|
    ensures Keys(a, c) == Keys(b, c)
  {
  }

  /** Nothing that could be found is ever lost again. */
  lemma {:induction false} ContentsGrow(schedule: seq<Action>, i: nat)
    requires i <= |schedule|
    ensures Contents(Exec(schedule[..i]).0, Exec(schedule[..i]).1) <= Contents(Exec(schedule).0, Exec(schedule).1)
    decreases |schedule| - i
  {
    hide Inv, Contents, Enabled, KeyIsNew;
    if i < |schedule| {
      ContentsGrow(schedule, i + 1);
      assert schedule[..i + 1][..i] == schedule[..i];
      var (s, cs) := Exec(schedule[..i]);
      if Takes(schedule, i) {
        StepContents(s, cs, schedule[i], Exec(schedule[..i + 1]).1);
      }
    } else {
      assert schedule[..i] == schedule;
    }
  }

  /** The first node at or after the target, by keys. */
  ghost predicate IsFirstFrom(keys: set<Key>, t: Target, a: seq<Node>, r: Option<nat>) {
    if r.Some? then
      r.value < |a| && a[r.value].key in keys && !KeyIsBefore(a[r.value].key, t)
      && forall k :: k in keys && !KeyIsBefore(k, t) ==> a[r.value].key <= k
    else forall k :: k in keys ==> KeyIsBefore(k, t)
  }

  /** The last node before the target, or the head if there is none. */
  ghost predicate IsLastBefore(keys: set<Key>, t: Target, a: seq<Node>, x: nat) {
    x < |a|
    && if x != HEAD then
         a[x].key in keys && KeyIsBefore(a[x].key, t)
         && forall k :: k in keys && KeyIsBefore(k, t) ==> k <= a[x].key
       else forall k :: k in keys ==> !KeyIsBefore(k, t)
  }

  lemma BracketsByKeys(a: seq<Node>, c: seq<nat>, t: Target, x: nat, next: Option<nat>)
    requires IsChain(a, 0, c) && Brackets(a, c, t, x, next)
    ensures IsFirstFrom(Keys(a, c), t, a, next) && IsLastBefore(Keys(a, c), t, a, x)
  {
    var p :| IsSplit(a, c, t, p, x, next);
    forall k | k in Keys(a, c)
      ensures KeyIsBefore(k, t) ==> x != HEAD && k <= a[x].key
      ensures !KeyIsBefore(k, t) ==> next.Some? && a[next.value].key <= k
    {
      var i :| 0 < i < |c| && a[c[i]].key == k;
    }
  }

  /** Whatever the writer was doing in the meantime, and whatever height the reader started from, a search
      that ends with its load at step `i` has found the first key at or after its target, and the last one
      before it, among the keys that can be found at that moment. */
  lemma SearchesAreExact(schedule: seq<Action>, i: nat)
    requires Takes(schedule, i) && schedule[i].ReaderLoad?
    ensures var (s, cs) := Exec(schedule[..i]);
            var q := Do(s, schedule[i], cs).readers[schedule[i].reader];
            q.Returned? ==> IsFirstFrom(Contents(s, cs), q.target, s.nodes, q.next)
                            && IsLastBefore(Contents(s, cs), q.target, s.nodes, q.before)
  {
    var (s, cs) := Exec(schedule[..i]);
    ReaderLoadKeeps(s, cs, schedule[i].reader);
    var q := Do(s, schedule[i], cs).readers[schedule[i].reader];
    if q.Returned? {
      BottomInBounds(s, cs);
      assert IsChain(s.nodes, 0, cs[0]);
      BracketsByKeys(s.nodes, cs[0], q.target, q.before, q.next);
    }
  }

  /** A key that could be found at an earlier time is not overlooked. */
  lemma PublishedKeysAreSeen(schedule: seq<Action>, i: nat, j: nat, key: Key)
    requires j <= i && Takes(schedule, i) && schedule[i].ReaderLoad?
    requires key in Contents(Exec(schedule[..j]).0, Exec(schedule[..j]).1)
    ensures var (s, cs) := Exec(schedule[..i]);
            var q := Do(s, schedule[i], cs).readers[schedule[i].reader];
            q.Returned? && !KeyIsBefore(key, q.target) ==>
              q.next.Some? && q.next.value < |s.nodes| && s.nodes[q.next.value].key <= key
  {
    hide Inv, Contents, Enabled, KeyIsNew;
    assert schedule[..i][..j] == schedule[..j];
    ContentsGrow(schedule[..i], j);
    SearchesAreExact(schedule, i);
  }
}
