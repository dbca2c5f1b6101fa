/** The memtable's skip list (skiplist.h): one inserting thread links a node level by level
    while any number of readers search without locks.  Every interleaving of single loads and
    stores is a run of the state machine below.
  */
module SkipList {
  import opened Keys

  /** Position of a stored key in the comparator's order. */
  type Key = real

  const MAX_HEIGHT: nat := 12

  /** Keys are unique, so a node is named by its key. */
  datatype Node = Head | Elem(key: Key)

  /** A next pointer; None is NULL. */
  type Link = Option<Key>

  predicate NodeBefore(n: Node, k: Key) {
    n.Head? || n.key < k
  }

  type Level = l: nat | l < MAX_HEIGHT

  /** One next-pointer table, one key set and one predecessor per level. */
  type Links = s: seq<map<Node, Link>> | |s| == MAX_HEIGHT witness EmptyLinks()
  type LevelKeys = s: seq<set<Key>> | |s| == MAX_HEIGHT witness EmptyKeys()
  type Prevs = s: seq<Node> | |s| == MAX_HEIGHT witness AllHeads()

  function EmptyLinks(): seq<map<Node, Link>> {
    var e: map<Node, Link> := map[Head := None];
    [e, e, e, e, e, e, e, e, e, e, e, e]
  }

  function EmptyKeys(): seq<set<Key>> {
    [{}, {}, {}, {}, {}, {}, {}, {}, {}, {}, {}, {}]
  }

  function AllHeads(): seq<Node> {
    [Head, Head, Head, Head, Head, Head, Head, Head, Head, Head, Head, Head]
  }

  /** KeyIsAfterNode: NULL counts as infinite. */
  predicate KeyIsAfter(target: Key, link: Link) {
    link.Some? && link.value < target
  }

  datatype Writer =
    | Idle
    | Raising(key: Key, height: nat, prev: Prevs)
    | Linking(key: Key, height: nat, prev: Prevs, level: Level, ownSet: bool)

  datatype Reader =
    | Searching(target: Key, x: Node, level: Level, began: set<Key>)
    | Found(target: Key, result: Link, began: set<Key>)

  /** `next` and `maxHeight` are the shared memory.  `linked[l]` records which keys are
      published at level l, and `began` what was published when a search started. */
  datatype State = State(
    next: Links,
    maxHeight: nat,
    linked: LevelKeys,
    writer: Writer,
    readers: map<nat, Reader>)

  /** A load of a next pointer; a link that was never stored reads as NULL here, and the
      invariant shows that no such link is ever read. */
  function LinkOf(s: State, l: Level, n: Node): Link {
    if n in s.next[l] then s.next[l][n] else None
  }

  // ---------- invariant ----------

  predicate OnLevel(keys: set<Key>, n: Node) {
    n.Head? || n.key in keys
  }

  /** `link` points to the least key of `keys` after node `n`. */
  ghost predicate IsNext(keys: set<Key>, n: Node, link: Link) {
    match link
    case None => forall k :: k in keys ==> !NodeBefore(n, k)
    case Some(s) => s in keys && NodeBefore(n, s) && forall k :: k in keys && NodeBefore(n, k) ==> s <= k
  }

  /** `n` is the last node of the level before `key`. */
  ghost predicate IsPrev(keys: set<Key>, n: Node, key: Key) {
    OnLevel(keys, n) && NodeBefore(n, key) && forall k :: k in keys && NodeBefore(n, k) ==> k >= key
  }

  /** Following `links` from the head walks exactly `keys` in order. */
  ghost predicate Chain(links: map<Node, Link>, keys: set<Key>) {
    forall n :: OnLevel(keys, n) ==> n in links && IsNext(keys, n, links[n])
  }

  ghost predicate ListOk(s: State) {
    1 <= s.maxHeight <= MAX_HEIGHT &&
    (forall l :: 0 <= l < MAX_HEIGHT ==> Chain(s.next[l], s.linked[l])) &&
    (forall l :: 0 <= l < MAX_HEIGHT - 1 ==> s.linked[l + 1] <= s.linked[l]) &&
    (forall l :: s.maxHeight <= l < MAX_HEIGHT ==> s.linked[l] == {})
  }

  /** The predecessors found by the writer's own search, head above the old height. */
  ghost predicate PrevOk(linked: LevelKeys, prev: Prevs, key: Key, from: nat) {
    forall l :: from <= l < MAX_HEIGHT ==> IsPrev(linked[l], prev[l], key)
  }

  ghost predicate WriterOk(s: State) {
    match s.writer
    case Idle => true
    case Raising(key, height, prev) =>
      1 <= height <= MAX_HEIGHT && key !in s.linked[0] && PrevOk(s.linked, prev, key, 0)
    case Linking(key, height, prev, level, ownSet) =>
      level < height <= s.maxHeight && PrevOk(s.linked, prev, key, level) &&
      (forall l :: 0 <= l < level ==> key in s.linked[l]) &&
      (forall l :: level <= l < MAX_HEIGHT ==> key !in s.linked[l]) &&
      (ownSet ==> Elem(key) in s.next[level] && s.next[level][Elem(key)] == LinkOf(s, level, prev[level]))
  }

  /** No key published before the search began lies between the target and the result. */
  ghost predicate ResultOk(linked: set<Key>, target: Key, result: Link, began: set<Key>) {
    match result
    case None => forall k :: k in began ==> k < target
    case Some(r) => r in linked && r >= target && forall k :: k in began && k >= target ==> r <= k
  }

  ghost predicate ReaderOk(s: State, r: Reader) {
    r.began <= s.linked[0] &&
    match r
    case Searching(target, x, level, _) =>
      OnLevel(s.linked[level], x) && NodeBefore(x, target)
    case Found(target, result, began) => ResultOk(s.linked[0], target, result, began)
  }

  ghost predicate Inv(s: State) {
    ListOk(s) && WriterOk(s) && forall i :: i in s.readers ==> ReaderOk(s, s.readers[i])
  }

  // ---------- steps ----------

  datatype Step =
    | BeginInsert(key: Key, height: nat, prev: Prevs)
    | RaiseHeight
    | SetOwnLink
    | Publish
    | BeginSearch(reader: nat, target: Key)
    | Load(reader: nat)

  ghost predicate Enabled(s: State, step: Step) {
    match step
    case BeginInsert(key, height, prev) =>
      s.writer.Idle? && 1 <= height <= MAX_HEIGHT && key !in s.linked[0] && PrevOk(s.linked, prev, key, 0)
    case RaiseHeight => s.writer.Raising?
    case SetOwnLink => s.writer.Linking? && !s.writer.ownSet
    case Publish => s.writer.Linking? && s.writer.ownSet
    case BeginSearch(reader, target) => reader !in s.readers || s.readers[reader].Found?
    case Load(reader) => reader in s.readers && s.readers[reader].Searching?
  }

  /** One load of a reader's search loop. */
  function LoadOnce(s: State, r: Reader): Reader
    requires r.Searching?
  {
    var next := LinkOf(s, r.level, r.x);
    if KeyIsAfter(r.target, next) then r.(x := Elem(next.value))
    else if r.level == 0 then Found(r.target, next, r.began)
    else r.(level := r.level - 1)
  }

  ghost function After(s: State, step: Step): State
    requires Enabled(s, step)
  {
    match step
    case BeginInsert(key, height, prev) => s.(writer := Raising(key, height, prev))
    case RaiseHeight =>
      var w := s.writer;
      s.(maxHeight := if w.height > s.maxHeight then w.height else s.maxHeight,
         writer := Linking(w.key, w.height, w.prev, 0, false))
    case SetOwnLink =>
      var w := s.writer;
      s.(next := s.next[w.level := s.next[w.level][Elem(w.key) := LinkOf(s, w.level, w.prev[w.level])]],
         writer := w.(ownSet := true))
    case Publish =>
      var w := s.writer;
      s.(next := s.next[w.level := s.next[w.level][w.prev[w.level] := Some(w.key)]],
         linked := s.linked[w.level := s.linked[w.level] + {w.key}],
         writer :=
           if w.level + 1 >= w.height || w.level + 1 == MAX_HEIGHT then Idle
           else w.(level := w.level + 1, ownSet := false))
    case BeginSearch(reader, target) =>
      var top := if 1 <= s.maxHeight <= MAX_HEIGHT then s.maxHeight - 1 else 0;
      s.(readers := s.readers[reader := Searching(target, Head, top, s.linked[0])])
    case Load(reader) =>
      s.(readers := s.readers[reader := LoadOnce(s, s.readers[reader])])
  }

  // ---------- preservation ----------

  /** Every level is a sublist of every level below it. */
  lemma {:induction false} SublistOf(s: State, low: nat, high: nat)
    requires ListOk(s) && low <= high < MAX_HEIGHT
    ensures s.linked[high] <= s.linked[low]
  {
    if low == high {
    } else {
      SublistOf(s, low, high - 1);
      assert s.linked[(high - 1) + 1] <= s.linked[high - 1];
    }
  }

  /** A store into a private node changes no published link. */
  lemma OwnLinkKeepsChain(links: map<Node, Link>, keys: set<Key>, key: Key, link: Link)
    requires Chain(links, keys) && key !in keys
    ensures Chain(links[Elem(key) := link], keys)
  {
  }

  /** The single publishing store inserts the key into the level's chain. */
  lemma PublishKeepsChain(links: map<Node, Link>, keys: set<Key>, prev: Node, key: Key)
    requires Chain(links, keys) && key !in keys && IsPrev(keys, prev, key)
    requires Elem(key) in links && links[Elem(key)] == links[prev]
    ensures Chain(links[prev := Some(key)], keys + {key})
  {
    var links', keys' := links[prev := Some(key)], keys + {key};
    assert IsNext(keys, prev, links[prev]);
    forall n | OnLevel(keys', n) ensures n in links' && IsNext(keys', n, links'[n]) {
      if n == prev {
      } else if n == Elem(key) {
        assert links'[n] == links[prev];
      } else {
        assert OnLevel(keys, n) && IsNext(keys, n, links[n]);
      }
    }
  }

  lemma PublishKeepsReader(s: State, s': State, r: Reader)
    requires ListOk(s) && ListOk(s') && ReaderOk(s, r)
    requires forall l :: 0 <= l < MAX_HEIGHT ==> s.linked[l] <= s'.linked[l]
    ensures ReaderOk(s', r)
  {
  }

  lemma PublishStep(s: State)
    requires Inv(s) && Enabled(s, Publish)
    ensures Inv(After(s, Publish))
  {
    var s', w := After(s, Publish), s.writer;
    PublishKeepsChain(s.next[w.level], s.linked[w.level], w.prev[w.level], w.key);
    forall l | 0 <= l < MAX_HEIGHT ensures Chain(s'.next[l], s'.linked[l]) {
    }
    assert ListOk(s');
    forall i | i in s'.readers ensures ReaderOk(s', s'.readers[i]) {
      PublishKeepsReader(s, s', s.readers[i]);
    }
  }

  lemma OwnLinkStep(s: State)
    requires Inv(s) && Enabled(s, SetOwnLink)
    ensures Inv(After(s, SetOwnLink))
  {
    var s', w := After(s, SetOwnLink), s.writer;
    assert OnLevel(s.linked[w.level], w.prev[w.level]) && IsPrev(s.linked[w.level], w.prev[w.level], w.key);
    OwnLinkKeepsChain(s.next[w.level], s.linked[w.level], w.key, LinkOf(s, w.level, w.prev[w.level]));
    forall l | 0 <= l < MAX_HEIGHT ensures Chain(s'.next[l], s'.linked[l]) {
    }
    assert ListOk(s');
    forall i | i in s'.readers ensures ReaderOk(s', s'.readers[i]) {
      PublishKeepsReader(s, s', s.readers[i]);
    }
  }

  lemma LoadKeepsReader(s: State, r: Reader)
    requires ListOk(s) && r.Searching? && ReaderOk(s, r)
    ensures ReaderOk(s, LoadOnce(s, r))
  {
    assert Chain(s.next[r.level], s.linked[r.level]);
    assert IsNext(s.linked[r.level], r.x, LinkOf(s, r.level, r.x));
    if r.level > 0 {
      assert s.linked[(r.level - 1) + 1] <= s.linked[r.level - 1];
    }
  }

  lemma StepKeepsInvariant(s: State, step: Step)
    requires Inv(s) && Enabled(s, step)
    ensures Inv(After(s, step))
  {
    var s' := After(s, step);
    match step
    case BeginInsert(_, _, _) =>
      forall i | i in s'.readers ensures ReaderOk(s', s'.readers[i]) { assert ReaderOk(s, s.readers[i]); }
    case RaiseHeight =>
      forall l | 0 <= l < MAX_HEIGHT ensures s.linked[l] <= s.linked[0] { SublistOf(s, 0, l); }
      forall i | i in s'.readers ensures ReaderOk(s', s'.readers[i]) { assert ReaderOk(s, s.readers[i]); }
    case SetOwnLink => OwnLinkStep(s);
    case Publish => PublishStep(s);
    case BeginSearch(reader, target) =>
      forall i | i in s'.readers ensures ReaderOk(s', s'.readers[i]) {
        if i != reader { assert ReaderOk(s, s.readers[i]); }
      }
    case Load(reader) =>
      LoadKeepsReader(s, s.readers[reader]);
      forall i | i in s'.readers ensures ReaderOk(s', s'.readers[i]) {
        if i != reader { assert ReaderOk(s, s.readers[i]); }
      }
  }

  // ---------- runs ----------

  ghost function Initial(): State {
    State(EmptyLinks(), 1, EmptyKeys(), Idle, map[])
  }

  ghost predicate IsRun(states: seq<State>, steps: seq<Step>) {
    |states| == |steps| + 1 && states[0] == Initial() &&
    forall i :: 0 <= i < |steps| ==> Enabled(states[i], steps[i]) && states[i + 1] == After(states[i], steps[i])
  }

  lemma InitialOk()
    ensures Inv(Initial())
  {
    hide ReaderOk, PrevOk;
    var s := Initial();
    forall l | 0 <= l < MAX_HEIGHT ensures s.next[l] == map[Head := None] && s.linked[l] == {} {
    }
  }

  lemma {:induction false} RunInvariant(states: seq<State>, steps: seq<Step>, i: nat)
    requires IsRun(states, steps) && i < |states|
    ensures Inv(states[i])
  {
    if i == 0 {
      InitialOk();
    } else {
      RunInvariant(states, steps, i - 1);
      StepKeepsInvariant(states[i - 1], steps[i - 1]);
    }
  }

  /** In every state of every run each level is a sorted chain and a sublist of the level below,
      whatever the inserting thread and the readers are in the middle of. */
  lemma LevelsStaySortedSublists(states: seq<State>, steps: seq<Step>, i: nat, l: Level)
    requires IsRun(states, steps) && i < |states|
    ensures Chain(states[i].next[l], states[i].linked[l])
    ensures l > 0 ==> states[i].linked[l] <= states[i].linked[l - 1]
  {
    RunInvariant(states, steps, i);
    if l > 0 {
      SublistOf(states[i], l - 1, l);
    }
  }

  lemma {:induction false} SearchRemembersItsStart(states: seq<State>, steps: seq<Step>, i: nat, j: nat, r: nat,
                                                   target: Key)
    requires IsRun(states, steps) && i < j < |states| && steps[i] == BeginSearch(r, target)
    requires forall m :: i < m < j ==> !(steps[m].BeginSearch? && steps[m].reader == r)
    ensures r in states[j].readers && states[j].readers[r].began == states[i].linked[0]
    ensures states[j].readers[r].target == target
    decreases j
  {
    if i + 1 < j {
      SearchRemembersItsStart(states, steps, i, j - 1, r, target);
      assert states[(j - 1) + 1] == After(states[j - 1], steps[j - 1]);
    }
  }

  /** However the search interleaves with insertions, its result is at or after the target and
      skips no key that was in the list when the search began. */
  lemma SearchFindsWhatWasThere(states: seq<State>, steps: seq<Step>, i: nat, j: nat, r: nat, target: Key)
    requires IsRun(states, steps) && i < j < |states| && steps[i] == BeginSearch(r, target)
    requires forall m :: i < m < j ==> !(steps[m].BeginSearch? && steps[m].reader == r)
    requires r in states[j].readers && states[j].readers[r].Found?
    ensures ResultOk(states[j].linked[0], target, states[j].readers[r].result, states[i].linked[0])
  {
    SearchRemembersItsStart(states, steps, i, j, r, target);
    RunInvariant(states, steps, j);
    assert ReaderOk(states[j], states[j].readers[r]);
  }

  /** What is left of a search: keys of the current level between the current node and the target. */
  ghost function Ahead(s: State, r: Reader): set<Key>
    requires r.Searching?
  {
    set k | k in s.linked[r.level] && NodeBefore(r.x, k) && k < r.target
  }

  /** Every load either finishes, descends a level, or strictly shrinks what is ahead. */
  lemma LoadMakesProgress(s: State, r: Reader)
    requires ListOk(s) && r.Searching? && ReaderOk(s, r)
    ensures var r' := LoadOnce(s, r);
      r'.Found? || r'.level < r.level || (r'.level == r.level && Ahead(s, r') < Ahead(s, r))
  {
    var r' := LoadOnce(s, r);
    assert Chain(s.next[r.level], s.linked[r.level]) && IsNext(s.linked[r.level], r.x, LinkOf(s, r.level, r.x));
    if r'.Searching? && r'.level == r.level {
      assert r'.x.key in Ahead(s, r) && r'.x.key !in Ahead(s, r');
      assert Ahead(s, r') <= Ahead(s, r);
    }
  }

  // ---------- the sequential code ----------

  ghost function Beyond(keys: set<Key>, x: Node): set<Key> {
    set k | k in keys && NodeBefore(x, k)
  }

  lemma BeyondShrinks(keys: set<Key>, x: Node, k: Key)
    requires k in keys && NodeBefore(x, k)
    ensures Beyond(keys, Elem(k)) < Beyond(keys, x)
  {
    assert k in Beyond(keys, x) && k !in Beyond(keys, Elem(k));
    assert Beyond(keys, Elem(k)) <= Beyond(keys, x);
  }

  class List {
    var next: Links
    var maxHeight: nat
    ghost var linked: LevelKeys

    ghost function Snapshot(): State
      reads this
    {
      State(next, maxHeight, linked, Idle, map[])
    }

    ghost predicate Valid()
      reads this
    {
      ListOk(Snapshot())
    }

    constructor ()
      ensures Valid() && Snapshot() == Initial()
    {
      next, maxHeight, linked := EmptyLinks(), 1, EmptyKeys();
      new;
      InitialOk();
    }

    /** The earliest node at or after `key`, and the last node before it on every level in use. */
    method FindGreaterOrEqual(key: Key) returns (node: Link, prev: Prevs)
      requires Valid()
      ensures ResultOk(linked[0], key, node, linked[0])
      ensures forall l :: 0 <= l < maxHeight ==> IsPrev(linked[l], prev[l], key)
    {
      prev := AllHeads();
      var x, level := Head, maxHeight - 1;
      while true
        invariant 0 <= level < maxHeight <= MAX_HEIGHT
        invariant OnLevel(linked[level], x) && NodeBefore(x, key)
        invariant forall l :: level < l < maxHeight ==> IsPrev(linked[l], prev[l], key)
        decreases level, Beyond(linked[level], x)
      {
        assert Chain(next[level], linked[level]) && IsNext(linked[level], x, next[level][x]);
        node := next[level][x];
        if KeyIsAfter(key, node) {
          BeyondShrinks(linked[level], x, node.value);
          x := Elem(node.value);
        } else {
          prev := prev[level := x];
          if level == 0 {
            return;
          }
          SublistOf(Snapshot(), level - 1, level);
          level := level - 1;
        }
      }
    }

    /** The latest node with a key below `key`, or the head. */
    method FindLessThan(key: Key) returns (x: Node)
      requires Valid()
      ensures IsPrev(linked[0], x, key)
    {
      x := Head;
      var level := maxHeight - 1;
      while true
        invariant 0 <= level < maxHeight <= MAX_HEIGHT
        invariant OnLevel(linked[level], x) && NodeBefore(x, key)
        decreases level, Beyond(linked[level], x)
      {
        assert Chain(next[level], linked[level]) && IsNext(linked[level], x, next[level][x]);
        var n := next[level][x];
        if n.None? || n.value >= key {
          if level == 0 {
            return;
          }
          SublistOf(Snapshot(), level - 1, level);
          level := level - 1;
        } else {
          BeyondShrinks(linked[level], x, n.value);
          x := Elem(n.value);
        }
      }
    }

    /** The last node, or the head if the list is empty. */
    method FindLast() returns (x: Node)
      requires Valid()
      ensures OnLevel(linked[0], x) && forall k :: k in linked[0] ==> !NodeBefore(x, k)
    {
      x := Head;
      var level := maxHeight - 1;
      while true
        invariant 0 <= level < maxHeight <= MAX_HEIGHT && OnLevel(linked[level], x)
        decreases level, Beyond(linked[level], x)
      {
        assert Chain(next[level], linked[level]) && IsNext(linked[level], x, next[level][x]);
        var n := next[level][x];
        if n.None? {
          if level == 0 {
            return;
          }
          SublistOf(Snapshot(), level - 1, level);
          level := level - 1;
        } else {
          BeyondShrinks(linked[level], x, n.value);
          x := Elem(n.value);
        }
      }
    }

    method Contains(key: Key) returns (found: bool)
      requires Valid()
      ensures found <==> key in linked[0]
    {
      var node, _ := FindGreaterOrEqual(key);
      found := node.Some? && node.value == key;
    }

    /** The predecessors an insertion needs: the head on levels that come into use. */
    method FindPredecessors(key: Key, height: nat) returns (prev: Prevs)
      requires Valid() && 1 <= height <= MAX_HEIGHT
      ensures PrevOk(linked, prev, key, 0)
    {
      var _, found := FindGreaterOrEqual(key);
      prev := WithHeads(found, maxHeight);
    }

    /** The two stores that link the new node at one level. */
    method LinkLevel(key: Key, prev: Prevs, i: Level)
      requires prev[i] in next[i]
      modifies this`next, this`linked
      ensures next == old(next[i := next[i][Elem(key) := next[i][prev[i]]][prev[i] := Some(key)]])
      ensures linked == old(linked)[i := old(linked)[i] + {key}]
    {
      next := next[i := next[i][Elem(key) := next[i][prev[i]]]];
      next := next[i := next[i][prev[i] := Some(key)]];
      linked := linked[i := linked[i] + {key}];
    }

    /** Inserting runs the writer's steps one store at a time: the trace returned is a run of the
        state machine from the old memory to the new one. */
    method Insert(key: Key, height: nat) returns (ghost trace: seq<State>, ghost steps: seq<Step>)
      requires Valid() && 1 <= height <= MAX_HEIGHT && key !in linked[0]
      modifies this
      ensures Valid()
      ensures Grown(old(linked), linked, key, height)
      ensures RunsTo(trace, steps, old(Snapshot()), Snapshot())
    {
      hide Inv, ListOk, RunsTo, Grown;
      var prev := FindPredecessors(key, height);
      QuietInv(Snapshot());
      ghost var s;
      trace, steps, s := RecordStart(Snapshot(), key, height, prev);
      if height > maxHeight {
        maxHeight := height;
      }
      var i := 0;
      NoneGrown(linked, key);
      while i < height
        invariant 0 <= i <= height
        invariant RunsTo(trace, steps, old(Snapshot()), s)
        invariant Inv(s)
        invariant s == Snapshot().(writer := if i == height then Idle else Linking(key, height, prev, i, false))
        invariant Grown(old(linked), linked, key, i)
      {
        PrevIsLinked(s);
        GrownNext(old(linked), linked, key, i);
        LinkLevel(key, prev, i);
        trace, steps, s := RecordLink(trace, steps, old(Snapshot()), s);
        i := i + 1;
      }
      InvList(s);
    }
  }

  /** The key has been added at the first `n` levels and nothing else has changed. */
  ghost predicate Grown(before: LevelKeys, now: LevelKeys, key: Key, n: nat) {
    forall l :: 0 <= l < MAX_HEIGHT ==> now[l] == before[l] + if l < n then {key} else {}
  }

  lemma NoneGrown(before: LevelKeys, key: Key)
    ensures Grown(before, before, key, 0)
  {
  }

  lemma GrownNext(before: LevelKeys, now: LevelKeys, key: Key, i: Level)
    requires Grown(before, now, key, i)
    ensures Grown(before, now[i := now[i] + {key}], key, i + 1)
  {
  }

  lemma QuietInv(s: State)
    requires ListOk(s) && s.writer.Idle? && s.readers == map[]
    ensures Inv(s)
  {
  }

  lemma InvList(s: State)
    requires Inv(s)
    ensures ListOk(s)
  {
  }

  lemma PrevIsLinked(s: State)
    requires Inv(s) && s.writer.Linking?
    ensures s.writer.prev[s.writer.level] in s.next[s.writer.level]
  {
    var w := s.writer;
    assert IsPrev(s.linked[w.level], w.prev[w.level], w.key) && Chain(s.next[w.level], s.linked[w.level]);
  }

  /** Predecessors above the height in use are the head. */
  function WithHeads(prev: Prevs, from: nat): (r: Prevs)
    ensures forall l :: 0 <= l < MAX_HEIGHT ==> r[l] == if l < from then prev[l] else Head
  {
    seq(MAX_HEIGHT, l requires 0 <= l < MAX_HEIGHT => if l < from then prev[l] else Head)
  }

  ghost predicate IsTrace(trace: seq<State>, steps: seq<Step>) {
    |trace| == |steps| + 1 &&
    forall i :: 0 <= i < |steps| ==> Enabled(trace[i], steps[i]) && trace[i + 1] == After(trace[i], steps[i])
  }

  ghost predicate RunsTo(trace: seq<State>, steps: seq<Step>, from: State, to: State) {
    IsTrace(trace, steps) && trace[0] == from && trace[|steps|] == to
  }

  ghost method Record(trace: seq<State>, steps: seq<Step>, s: State, step: Step)
    returns (trace': seq<State>, steps': seq<Step>, s': State)
    requires IsTrace(trace, steps) && trace[|steps|] == s && Inv(s) && Enabled(s, step)
    ensures s' == After(s, step) && Inv(s')
    ensures trace' == trace + [s'] && steps' == steps + [step] && IsTrace(trace', steps')
  {
    s' := After(s, step);
    StepKeepsInvariant(s, step);
    trace', steps' := trace + [s'], steps + [step];
  }

  ghost method RecordStart(s: State, key: Key, height: nat, prev: Prevs)
    returns (trace: seq<State>, steps: seq<Step>, s': State)
    requires Inv(s) && Enabled(s, BeginInsert(key, height, prev))
    ensures RunsTo(trace, steps, s, s') && Inv(s')
    ensures s' == s.(maxHeight := if height > s.maxHeight then height else s.maxHeight,
                     writer := Linking(key, height, prev, 0, false))
  {
    trace, steps := [s], [];
    trace, steps, s' := Record(trace, steps, s, BeginInsert(key, height, prev));
    trace, steps, s' := Record(trace, steps, s', RaiseHeight);
  }

  ghost method RecordLink(trace: seq<State>, steps: seq<Step>, from: State, s: State)
    returns (trace': seq<State>, steps': seq<Step>, s': State)
    requires RunsTo(trace, steps, from, s) && Inv(s) && s.writer.Linking? && !s.writer.ownSet
    ensures RunsTo(trace', steps', from, s') && Inv(s')
    ensures var w := s.writer; var i, prev := w.level, w.prev[w.level];
      prev in s.next[i] &&
      s' == s.(next := s.next[i := s.next[i][Elem(w.key) := s.next[i][prev]][prev := Some(w.key)]],
               linked := s.linked[i := s.linked[i] + {w.key}],
               writer := if i + 1 == w.height then Idle else w.(level := i + 1))
  {
    PrevIsLinked(s);
    trace', steps', s' := Record(trace, steps, s, SetOwnLink);
    trace', steps', s' := Record(trace', steps', s', Publish);
  }
}
