/**
  The tree walker: an explicit-stack, pre-order, depth-first iterator over
  nested trees, resolving every entry through the object store.

  Three layers:
  - Advance is one call of Next on the walker's state (stack of frames and
    base path), branch for branch;
  - FrameRun, StackRun and Walk are the reference definition of what is left
    to yield: recursive pre-order descent, cut off by the depth bound and by
    the first store failure (a later Next resumes after the failed entry, and
    what it yields is the reference walk of the stack it resumes from);
  - AdvanceRun connects the two: every call of Next yields the head of what is
    left and leaves the rest, so a fresh walker yields exactly Walk.
  The TreeWalker class keeps the source's fields and is proved against both.
 */
module TreeWalking {
  import opened Wrappers
  import opened Objects
  import opened Paths

  /** The deepest stack index Next accepts (maxTreeDepth of the package). */
  const MaxTreeDepth: nat := 1024

  /** treeEntryIter: an open tree and the index of its next entry. */
  datatype Frame = Frame(tree: Tree, pos: nat)

  /** What Next reports instead of an entry: io.EOF, ErrMaxTreeDepth or a store failure. */
  datatype Error = EOF | ErrMaxTreeDepth | StoreError(code: nat)

  /** One yield of Next: the full path, the entry and its resolved object. */
  datatype Item = Item(name: string, entry: TreeEntry, obj: Object)

  datatype NextResult = Yield(item: Item) | Stopped(err: Error)

  /** The result of one Next call together with the walker's new stack and base. */
  datatype Outcome = Outcome(result: NextResult, stack: seq<Frame>, base: string)

  /** Every frame's index is within its tree. */
  predicate InRange(stack: seq<Frame>) {
    forall i :: 0 <= i < |stack| ==> stack[i].pos <= |stack[i].tree.entries|
  }

  /** Entries the top frame has still to produce. */
  function TopLeft(stack: seq<Frame>): int {
    if stack == [] then 0 else |stack[|stack| - 1].tree.entries| - stack[|stack| - 1].pos
  }

  // ---------------------------------------------------------------------------
  // One call of Next

  /**
    Next on stack and base (tree_walker.go:45-94): each pass of its loop stops on
    an empty stack, fails on a too-deep one, pops an exhausted frame and trims
    base, or advances the top frame past one entry and resolves it. A missing
    object is skipped; any other store failure is returned; a resolved entry is
    yielded, and a tree is pushed as a new frame with base extended by its name.
   */
  function Advance(store: Store, stack: seq<Frame>, base: string): (o: Outcome)
    requires InRange(stack)
    ensures InRange(o.stack)
    ensures o.stack != [] ==> stack != [] && o.stack[0].tree == stack[0].tree
    decreases |stack|, TopLeft(stack)
  {
    var current := |stack| - 1;
    if current < 0 then Outcome(Stopped(EOF), stack, base)
    else if current > MaxTreeDepth then Outcome(Stopped(ErrMaxTreeDepth), stack, base)
    else
      var top := stack[current];
      if top.pos == |top.tree.entries| then
        Advance(store, stack[..current], Dir(base))
      else
        var e := top.tree.entries[top.pos];
        var advanced := stack[..current] + [Frame(top.tree, top.pos + 1)];
        assert advanced[..current] == stack[..current];
        match store(e.hash)
        case NotFound => Advance(store, advanced, base)
        case Failed(code) => Outcome(Stopped(StoreError(code)), advanced, base)
        case Found(obj) =>
          var item := Item(JoinName(base, e.name), e, obj);
          if obj.TreeObject? then
            Outcome(Yield(item), advanced + [Frame(obj.tree, 0)], JoinName(base, e.name))
          else
            Outcome(Yield(item), advanced, base)
  }

  // ---------------------------------------------------------------------------
  // The walker's structural invariant

  /** Every frame below the top has produced the entry whose subtree sits above it. */
  predicate Entered(stack: seq<Frame>) {
    InRange(stack) && forall i :: 0 <= i < |stack| - 1 ==> stack[i].pos > 0
  }

  /** The entry a frame produced last. */
  function LastEntry(f: Frame): TreeEntry
    requires 0 < f.pos <= |f.tree.entries|
  {
    f.tree.entries[f.pos - 1]
  }

  /** Every given frame has produced at least one entry. */
  predicate Started(frames: seq<Frame>) {
    forall i :: 0 <= i < |frames| ==> 0 < frames[i].pos <= |frames[i].tree.entries|
  }

  /** The names of the entries the given frames produced last, bottom first. */
  function Names(frames: seq<Frame>): (names: seq<Name>)
    requires Started(frames)
    ensures |names| == |frames|
  {
    if frames == [] then []
    else Names(frames[..|frames| - 1]) + [LastEntry(frames[|frames| - 1]).name]
  }

  /** The path segments of the innermost open tree: the names of the entries entered to reach it. */
  function Segments(stack: seq<Frame>): (segs: seq<Name>)
    requires Entered(stack)
    ensures stack != [] ==> |segs| == |stack| - 1
  {
    if stack == [] then [] else Names(stack[..|stack| - 1])
  }

  /** Each frame above the bottom holds the tree the store gives for the entry below it. */
  predicate Linked(store: Store, stack: seq<Frame>)
    requires Entered(stack)
  {
    |stack| <= 1 ||
    (Linked(store, stack[..|stack| - 1]) &&
     store(LastEntry(stack[|stack| - 2]).hash) == Found(TreeObject(stack[|stack| - 1].tree)))
  }

  /** The walker's invariant: frames entered and linked from root, base the path of the innermost tree. */
  predicate Walking(store: Store, root: Tree, stack: seq<Frame>, base: string) {
    && Entered(stack)
    && Linked(store, stack)
    && (stack != [] ==> base == Join(Segments(stack)) && stack[0].tree == root)
  }

  // ---------------------------------------------------------------------------
  // Reference definition: what is left to yield

  /** Items in pre-order, ended either by exhaustion (stop == None) or by an error. */
  datatype Run = Run(items: seq<Item>, stop: Option<Error>)

  /** a, then b if a ran to exhaustion. */
  function Then(a: Run, b: Run): Run {
    if a.stop.Some? then a else Run(a.items + b.items, b.stop)
  }

  /** The error Next reports once nothing is left to yield. */
  function StopError(stop: Option<Error>): Error {
    if stop.None? then EOF else stop.value
  }

  /**
    The pre-order walk of tree from entry pos on, for a frame at stack height
    level whose base path has segments prefix: each resolvable entry, then, for
    a tree, all of its own walk, then the remaining siblings. Missing objects are
    skipped; another store failure stops the walk there (Next reports it, and a
    later call resumes after the failed entry); a frame whose index in the
    stack is above MaxTreeDepth ends it with ErrMaxTreeDepth.
   */
  function FrameRun(store: Store, tree: Tree, pos: nat, prefix: seq<Name>, level: nat): Run
    requires pos <= |tree.entries|
    decreases if level <= MaxTreeDepth + 1 then MaxTreeDepth + 2 - level else 0, |tree.entries| - pos
  {
    if level > MaxTreeDepth + 1 then Run([], Some(ErrMaxTreeDepth))
    else if pos == |tree.entries| then Run([], None)
    else
      var e := tree.entries[pos];
      var rest := FrameRun(store, tree, pos + 1, prefix, level);
      match store(e.hash)
      case NotFound => rest
      case Failed(code) => Run([], Some(StoreError(code)))
      case Found(obj) =>
        var here := Run([Item(Join(prefix + [e.name]), e, obj)], None);
        if obj.TreeObject? then
          Then(here, Then(FrameRun(store, obj.tree, 0, prefix + [e.name], level + 1), rest))
        else
          Then(here, rest)
  }

  /** What is left to yield from a stack: the top frame's walk, then its parent's, down to the root. */
  function StackRun(store: Store, stack: seq<Frame>): Run
    requires Entered(stack)
    decreases |stack|
  {
    if stack == [] then Run([], None)
    else
      var top := stack[|stack| - 1];
      Then(FrameRun(store, top.tree, top.pos, Segments(stack), |stack|),
           StackRun(store, stack[..|stack| - 1]))
  }

  /** Everything a walker started on root yields. */
  function Walk(store: Store, root: Tree): Run {
    FrameRun(store, root, 0, [], 1)
  }

  // ---------------------------------------------------------------------------
  // Helper facts

  lemma ThenAssoc(a: Run, b: Run, c: Run)
    ensures Then(Then(a, b), c) == Then(a, Then(b, c))
  {
    if a.stop.None? && b.stop.None? {
      assert (a.items + b.items) + c.items == a.items + (b.items + c.items);
    }
  }

  /** A yield's algebra: an item in front of a, then b, leaves a then b. */
  lemma ThenFront(it: Item, a: Run, b: Run, whole: Run)
    requires whole == Then(Run([it] + a.items, a.stop), b)
    ensures whole.items != [] && whole.items[0] == it
    ensures Run(whole.items[1..], whole.stop) == Then(a, b)
  {
    if a.stop.None? {
      assert ([it] + a.items) + b.items == [it] + (a.items + b.items);
    }
  }

  /** A stack whose every frame has produced an entry, with any frame on top, is Entered. */
  lemma SnocEntered(parent: seq<Frame>, f: Frame)
    requires Started(parent) && f.pos <= |f.tree.entries|
    ensures Entered(parent) && Entered(parent + [f])
    ensures Segments(parent + [f]) == Names(parent)
  {
    forall i | 0 <= i < |parent| + 1
      ensures (parent + [f])[i].pos <= |(parent + [f])[i].tree.entries|
      ensures i < |parent| ==> (parent + [f])[i].pos > 0
    {
      if i < |parent| {
        assert (parent + [f])[i] == parent[i];
      }
    }
    assert (parent + [f])[..|parent|] == parent;
  }

  /** An Entered stack is its Started frames below, plus its top frame. */
  lemma TopSplit(stack: seq<Frame>)
    requires Entered(stack) && stack != []
    ensures var parent := stack[..|stack| - 1];
            stack == parent + [stack[|stack| - 1]] && Started(parent) && Segments(stack) == Names(parent)
  {
    var parent := stack[..|stack| - 1];
    assert stack == parent + [stack[|stack| - 1]];
    assert forall i :: 0 <= i < |parent| ==> parent[i] == stack[i];
  }

  /** The frames of an Entered stack below its top are Started, and their names are its segments. */
  lemma TopParts(stack: seq<Frame>)
    requires Entered(stack) && stack != []
    ensures var parent := stack[..|stack| - 1];
            Started(parent) && Segments(stack) == Names(parent)
  {
    var parent := stack[..|stack| - 1];
    assert forall i :: 0 <= i < |parent| ==> parent[i] == stack[i];
  }

  /** Names grow by one name per frame. */
  lemma StartedSnoc(frames: seq<Frame>, f: Frame)
    requires Started(frames)
    requires 0 < f.pos <= |f.tree.entries|
    ensures Started(frames + [f])
    ensures Names(frames + [f]) == Names(frames) + [LastEntry(f).name]
  {
    assert (frames + [f])[..|frames|] == frames;
    forall i | 0 <= i < |frames| + 1
      ensures 0 < (frames + [f])[i].pos <= |(frames + [f])[i].tree.entries|
    {
      if i < |frames| {
        assert (frames + [f])[i] == frames[i];
      }
    }
  }

  /** The segments of a Started stack below its top. */
  lemma NamesSplit(parent: seq<Frame>)
    requires Started(parent) && parent != []
    ensures Entered(parent)
    ensures Names(parent) == Segments(parent) + [LastEntry(parent[|parent| - 1]).name]
  {
    var below := parent[..|parent| - 1];
    assert forall i :: 0 <= i < |below| ==> below[i] == parent[i];
  }

  /** What is left to yield from a stack with frame f on top. */
  lemma StackRunSnoc(store: Store, parent: seq<Frame>, f: Frame)
    requires Started(parent) && f.pos <= |f.tree.entries|
    ensures Entered(parent) && Entered(parent + [f])
    ensures StackRun(store, parent + [f])
         == Then(FrameRun(store, f.tree, f.pos, Names(parent), |parent| + 1), StackRun(store, parent))
  {
    SnocEntered(parent, f);
    assert (parent + [f])[..|parent|] == parent;
  }

  /** The links of a stack with f on top: those below, and the one from the frame below to f. */
  lemma LinkedSnoc(store: Store, parent: seq<Frame>, f: Frame)
    requires Started(parent) && f.pos <= |f.tree.entries|
    ensures Entered(parent) && Entered(parent + [f])
    ensures Linked(store, parent + [f])
        <==> Linked(store, parent)
             && (parent != [] ==> store(LastEntry(parent[|parent| - 1]).hash) == Found(TreeObject(f.tree)))
  {
    SnocEntered(parent, f);
    var s := parent + [f];
    assert s[..|parent|] == parent;
    if parent != [] {
      assert s[|parent| - 1] == parent[|parent| - 1];
    }
  }

  // ---------------------------------------------------------------------------
  // Next against the reference walk

  /** The pop branch of Next: an exhausted top frame is dropped and base loses its last segment. */
  lemma PopAdvance(store: Store, stack: seq<Frame>, base: string)
    requires InRange(stack) && stack != [] && |stack| - 1 <= MaxTreeDepth
    requires stack[|stack| - 1].pos == |stack[|stack| - 1].tree.entries|
    ensures InRange(stack[..|stack| - 1])
    ensures Advance(store, stack, base) == Advance(store, stack[..|stack| - 1], Dir(base))
  {}

  /** An exhausted top frame contributes nothing to the walk, and Dir gives the parent's base. */
  lemma PopStep(store: Store, stack: seq<Frame>, base: string)
    requires Entered(stack) && stack != [] && |stack| - 1 <= MaxTreeDepth
    requires base == Join(Segments(stack))
    requires stack[|stack| - 1].pos == |stack[|stack| - 1].tree.entries|
    ensures Entered(stack[..|stack| - 1])
    ensures StackRun(store, stack) == StackRun(store, stack[..|stack| - 1])
    ensures stack[..|stack| - 1] != [] ==> Dir(base) == Join(Segments(stack[..|stack| - 1]))
    ensures Linked(store, stack) ==> Linked(store, stack[..|stack| - 1])
  {
    var parent, top := stack[..|stack| - 1], stack[|stack| - 1];
    TopSplit(stack);
    StackRunSnoc(store, parent, top);
    assert FrameRun(store, top.tree, top.pos, Names(parent), |stack|) == Run([], None);
    assert [] + StackRun(store, parent).items == StackRun(store, parent).items;
    LinkedSnoc(store, parent, top);
    if parent != [] {
      NamesSplit(parent);
      var n := LastEntry(parent[|parent| - 1]).name;
      JoinSnoc(Segments(parent), n);
      DirJoinName(Join(Segments(parent)), n);
    }
  }

  /** The stack after the top frame moves past its next entry. */
  function Advanced(stack: seq<Frame>): seq<Frame>
    requires stack != []
  {
    var top := stack[|stack| - 1];
    stack[..|stack| - 1] + [Frame(top.tree, top.pos + 1)]
  }

  /** Moving the top frame past an entry keeps the invariant, the base path and the links. */
  lemma AdvancedKeeps(store: Store, stack: seq<Frame>)
    requires Entered(stack) && stack != []
    requires stack[|stack| - 1].pos < |stack[|stack| - 1].tree.entries|
    ensures Entered(Advanced(stack)) && Segments(Advanced(stack)) == Segments(stack)
    ensures Linked(store, stack) ==> Linked(store, Advanced(stack))
  {
    var parent, top := stack[..|stack| - 1], stack[|stack| - 1];
    TopSplit(stack);
    SnocEntered(parent, Frame(top.tree, top.pos + 1));
    LinkedSnoc(store, parent, top);
    LinkedSnoc(store, parent, Frame(top.tree, top.pos + 1));
  }

  /** The advance branch of Next: the top frame moves past its entry, which is skipped, reported or yielded. */
  lemma AdvanceEntry(store: Store, stack: seq<Frame>, base: string)
    requires InRange(stack) && stack != [] && |stack| - 1 <= MaxTreeDepth
    requires stack[|stack| - 1].pos < |stack[|stack| - 1].tree.entries|
    ensures InRange(Advanced(stack))
    ensures var e := stack[|stack| - 1].tree.entries[stack[|stack| - 1].pos];
            && (store(e.hash) == NotFound ==> Advance(store, stack, base) == Advance(store, Advanced(stack), base))
            && (store(e.hash).Failed? ==>
                  Advance(store, stack, base) == Outcome(Stopped(StoreError(store(e.hash).code)), Advanced(stack), base))
            && (store(e.hash).Found? ==>
                  var obj := store(e.hash).obj;
                  var item := Item(JoinName(base, e.name), e, obj);
                  Advance(store, stack, base)
                    == if obj.TreeObject? then Outcome(Yield(item), Advanced(stack) + [Frame(obj.tree, 0)], JoinName(base, e.name))
                       else Outcome(Yield(item), Advanced(stack), base))
  {}

  /** The skip branch: moving the top frame past a missing object changes nothing left to yield. */
  lemma SkipStep(store: Store, stack: seq<Frame>, base: string)
    requires Entered(stack) && stack != [] && |stack| - 1 <= MaxTreeDepth
    requires stack[|stack| - 1].pos < |stack[|stack| - 1].tree.entries|
    requires store(stack[|stack| - 1].tree.entries[stack[|stack| - 1].pos].hash) == NotFound
    ensures Entered(Advanced(stack))
    ensures Advance(store, stack, base) == Advance(store, Advanced(stack), base)
    ensures StackRun(store, Advanced(stack)) == StackRun(store, stack)
  {
    var parent, top := stack[..|stack| - 1], stack[|stack| - 1];
    TopSplit(stack);
    StackRunSnoc(store, parent, top);
    StackRunSnoc(store, parent, Frame(top.tree, top.pos + 1));
  }

  /**
    The failure branch: the store's error ends the run pending from this stack,
    yet Next has moved the top frame past the failed entry, so what is pending
    afterwards is the rest of that frame's walk, then the frames below it.
   */
  lemma FailStep(store: Store, stack: seq<Frame>, base: string)
    requires Entered(stack) && stack != [] && |stack| - 1 <= MaxTreeDepth
    requires stack[|stack| - 1].pos < |stack[|stack| - 1].tree.entries|
    requires store(stack[|stack| - 1].tree.entries[stack[|stack| - 1].pos].hash).Failed?
    ensures var code := store(stack[|stack| - 1].tree.entries[stack[|stack| - 1].pos].hash).code;
            && Advance(store, stack, base) == Outcome(Stopped(StoreError(code)), Advanced(stack), base)
            && StackRun(store, stack) == Run([], Some(StoreError(code)))
    ensures Entered(Advanced(stack))
    ensures var top := stack[|stack| - 1];
            StackRun(store, Advanced(stack))
              == Then(FrameRun(store, top.tree, top.pos + 1, Segments(stack), |stack|), StackRun(store, stack[..|stack| - 1]))
  {
    var parent, top := stack[..|stack| - 1], stack[|stack| - 1];
    TopSplit(stack);
    StackRunSnoc(store, parent, top);
    AdvancedKeeps(store, stack);
    AdvancedStackRun(store, stack);
  }

  /** FrameRun at a resolvable entry: the entry's item comes first. */
  lemma FoundRun(store: Store, tree: Tree, pos: nat, prefix: seq<Name>, level: nat)
    requires pos < |tree.entries| && level <= MaxTreeDepth + 1
    requires store(tree.entries[pos].hash).Found?
    ensures var e := tree.entries[pos];
            var obj := store(e.hash).obj;
            var rest := FrameRun(store, tree, pos + 1, prefix, level);
            var after := if obj.TreeObject? then Then(FrameRun(store, obj.tree, 0, prefix + [e.name], level + 1), rest) else rest;
            FrameRun(store, tree, pos, prefix, level) == Run([Item(Join(prefix + [e.name]), e, obj)] + after.items, after.stop)
  {}

  /** What is left once the top frame has moved past its entry: its remaining siblings, then the frames below. */
  lemma AdvancedStackRun(store: Store, stack: seq<Frame>)
    requires Entered(stack) && stack != []
    requires stack[|stack| - 1].pos < |stack[|stack| - 1].tree.entries|
    requires Entered(Advanced(stack))
    ensures var top := stack[|stack| - 1];
            StackRun(store, Advanced(stack))
              == Then(FrameRun(store, top.tree, top.pos + 1, Segments(stack), |stack|), StackRun(store, stack[..|stack| - 1]))
  {
    var parent, top := stack[..|stack| - 1], stack[|stack| - 1];
    TopParts(stack);
    StackRunSnoc(store, parent, Frame(top.tree, top.pos + 1));
    assert Advanced(stack) == parent + [Frame(top.tree, top.pos + 1)];
  }

  /** The pending walk of a stack whose top frame is at a resolvable entry. */
  lemma FoundStackRun(store: Store, stack: seq<Frame>, base: string)
    requires Entered(stack) && stack != [] && |stack| - 1 <= MaxTreeDepth
    requires base == Join(Segments(stack))
    requires stack[|stack| - 1].pos < |stack[|stack| - 1].tree.entries|
    requires store(stack[|stack| - 1].tree.entries[stack[|stack| - 1].pos].hash).Found?
    ensures var top := stack[|stack| - 1];
            var e := top.tree.entries[top.pos];
            var obj := store(e.hash).obj;
            var prefix := Segments(stack);
            var rest := FrameRun(store, top.tree, top.pos + 1, prefix, |stack|);
            var after := if obj.TreeObject? then Then(FrameRun(store, obj.tree, 0, prefix + [e.name], |stack| + 1), rest) else rest;
            StackRun(store, stack)
              == Then(Run([Item(JoinName(base, e.name), e, obj)] + after.items, after.stop), StackRun(store, stack[..|stack| - 1]))
  {
    var parent, top := stack[..|stack| - 1], stack[|stack| - 1];
    var e := top.tree.entries[top.pos];
    TopSplit(stack);
    StackRunSnoc(store, parent, top);
    JoinSnoc(Segments(stack), e.name);
    FoundRun(store, top.tree, top.pos, Segments(stack), |stack|);
  }

  /** The yield branch for an entry that is not a tree. */
  lemma YieldLeaf(store: Store, stack: seq<Frame>, base: string)
    requires Entered(stack) && stack != [] && |stack| - 1 <= MaxTreeDepth
    requires base == Join(Segments(stack))
    requires stack[|stack| - 1].pos < |stack[|stack| - 1].tree.entries|
    requires store(stack[|stack| - 1].tree.entries[stack[|stack| - 1].pos].hash).Found?
    requires !store(stack[|stack| - 1].tree.entries[stack[|stack| - 1].pos].hash).obj.TreeObject?
    ensures var o := Advance(store, stack, base);
            var run := StackRun(store, stack);
            && o.stack == Advanced(stack) && o.base == base
            && run.items != [] && o.result == Yield(run.items[0])
            && StackRun(store, o.stack) == Run(run.items[1..], run.stop)
  {
    var top := stack[|stack| - 1];
    var e := top.tree.entries[top.pos];
    var item := Item(JoinName(base, e.name), e, store(e.hash).obj);
    AdvanceEntry(store, stack, base);
    FoundStackRun(store, stack, base);
    AdvancedKeeps(store, stack);
    AdvancedStackRun(store, stack);
    ThenFront(item, FrameRun(store, top.tree, top.pos + 1, Segments(stack), |stack|),
              StackRun(store, stack[..|stack| - 1]), StackRun(store, stack));
  }

  /** The stack after a tree entry is entered: its frame on top, its name appended to the segments. */
  lemma PushStep(store: Store, stack: seq<Frame>, t: Tree)
    requires Entered(stack) && stack != []
    requires stack[|stack| - 1].pos < |stack[|stack| - 1].tree.entries|
    requires store(stack[|stack| - 1].tree.entries[stack[|stack| - 1].pos].hash) == Found(TreeObject(t))
    ensures var pushed := Advanced(stack) + [Frame(t, 0)];
            var e := stack[|stack| - 1].tree.entries[stack[|stack| - 1].pos];
            && Entered(Advanced(stack))
            && Entered(pushed)
            && Segments(pushed) == Segments(stack) + [e.name]
            && (Linked(store, stack) ==> Linked(store, pushed))
            && StackRun(store, pushed)
               == Then(FrameRun(store, t, 0, Segments(stack) + [e.name], |stack| + 1), StackRun(store, Advanced(stack)))
  {
    var parent, top := stack[..|stack| - 1], stack[|stack| - 1];
    var f' := Frame(top.tree, top.pos + 1);
    var advanced := Advanced(stack);
    TopSplit(stack);
    AdvancedKeeps(store, stack);
    StartedSnoc(parent, f');
    StackRunSnoc(store, advanced, Frame(t, 0));
    LinkedSnoc(store, advanced, Frame(t, 0));
  }

  /** The yield branch for a tree entry: its frame is pushed and its walk comes before the siblings left. */
  lemma YieldTree(store: Store, stack: seq<Frame>, base: string)
    requires Entered(stack) && stack != [] && |stack| - 1 <= MaxTreeDepth
    requires base == Join(Segments(stack))
    requires stack[|stack| - 1].pos < |stack[|stack| - 1].tree.entries|
    requires store(stack[|stack| - 1].tree.entries[stack[|stack| - 1].pos].hash).Found?
    requires store(stack[|stack| - 1].tree.entries[stack[|stack| - 1].pos].hash).obj.TreeObject?
    ensures var o := Advance(store, stack, base);
            var run := StackRun(store, stack);
            && Entered(o.stack) && o.stack != [] && o.base == Join(Segments(o.stack))
            && (Linked(store, stack) ==> Linked(store, o.stack))
            && run.items != [] && o.result == Yield(run.items[0])
            && StackRun(store, o.stack) == Run(run.items[1..], run.stop)
  {
    var top := stack[|stack| - 1];
    var e := top.tree.entries[top.pos];
    var obj := store(e.hash).obj;
    var prefix := Segments(stack);
    var item := Item(JoinName(base, e.name), e, obj);
    var rest := FrameRun(store, top.tree, top.pos + 1, prefix, |stack|);
    var sub := FrameRun(store, obj.tree, 0, prefix + [e.name], |stack| + 1);
    var below := StackRun(store, stack[..|stack| - 1]);
    AdvanceEntry(store, stack, base);
    FoundStackRun(store, stack, base);
    AdvancedKeeps(store, stack);
    AdvancedStackRun(store, stack);
    PushStep(store, stack, obj.tree);
    JoinSnoc(prefix, e.name);
    ThenAssoc(sub, rest, below);
    ThenFront(item, Then(sub, rest), below, StackRun(store, stack));
  }

  /**
    One call of Next against the reference walk: it yields the first item left
    and leaves exactly the others; with nothing left it reports the walk's end,
    io.EOF (with an empty stack) after a complete walk. The base path and the
    links between frames survive every branch.
   */
  ghost predicate FollowsWalk(store: Store, stack: seq<Frame>, base: string)
    requires Entered(stack)
  {
    var o := Advance(store, stack, base);
    var run := StackRun(store, stack);
    && Entered(o.stack)
    && (o.stack != [] ==> o.base == Join(Segments(o.stack)))
    && (Linked(store, stack) ==> Linked(store, o.stack))
    && (run.items != [] ==> o.result == Yield(run.items[0]) && StackRun(store, o.stack) == Run(run.items[1..], run.stop))
    && (run.items == [] ==> o.result == Stopped(StopError(run.stop)))
    && (run.items == [] && run.stop.None? ==> o.stack == [])
  }

  lemma PopCase(store: Store, stack: seq<Frame>, base: string)
    requires Entered(stack) && stack != [] && |stack| - 1 <= MaxTreeDepth
    requires base == Join(Segments(stack))
    requires stack[|stack| - 1].pos == |stack[|stack| - 1].tree.entries|
    requires Entered(stack[..|stack| - 1]) && FollowsWalk(store, stack[..|stack| - 1], Dir(base))
    ensures FollowsWalk(store, stack, base)
  {
    PopAdvance(store, stack, base);
    PopStep(store, stack, base);
  }

  lemma SkipCase(store: Store, stack: seq<Frame>, base: string)
    requires Entered(stack) && stack != [] && |stack| - 1 <= MaxTreeDepth
    requires stack[|stack| - 1].pos < |stack[|stack| - 1].tree.entries|
    requires store(stack[|stack| - 1].tree.entries[stack[|stack| - 1].pos].hash) == NotFound
    requires Entered(Advanced(stack)) && FollowsWalk(store, Advanced(stack), base)
    ensures FollowsWalk(store, stack, base)
  {
    SkipStep(store, stack, base);
    AdvancedKeeps(store, stack);
  }

  lemma FailCase(store: Store, stack: seq<Frame>, base: string)
    requires Entered(stack) && stack != [] && |stack| - 1 <= MaxTreeDepth
    requires base == Join(Segments(stack))
    requires stack[|stack| - 1].pos < |stack[|stack| - 1].tree.entries|
    requires store(stack[|stack| - 1].tree.entries[stack[|stack| - 1].pos].hash).Failed?
    ensures FollowsWalk(store, stack, base)
  {
    FailStep(store, stack, base);
    AdvancedKeeps(store, stack);
  }

  lemma FoundCase(store: Store, stack: seq<Frame>, base: string)
    requires Entered(stack) && stack != [] && |stack| - 1 <= MaxTreeDepth
    requires base == Join(Segments(stack))
    requires stack[|stack| - 1].pos < |stack[|stack| - 1].tree.entries|
    requires store(stack[|stack| - 1].tree.entries[stack[|stack| - 1].pos].hash).Found?
    ensures FollowsWalk(store, stack, base)
  {
    AdvancedKeeps(store, stack);
    if store(stack[|stack| - 1].tree.entries[stack[|stack| - 1].pos].hash).obj.TreeObject? {
      YieldTree(store, stack, base);
    } else {
      YieldLeaf(store, stack, base);
    }
  }

  /** Every call of Next follows the reference walk, by induction on the loop's passes. */
  lemma {:induction false} AdvanceRun(store: Store, stack: seq<Frame>, base: string)
    requires Entered(stack)
    requires stack != [] ==> base == Join(Segments(stack))
    ensures FollowsWalk(store, stack, base)
    decreases |stack|, TopLeft(stack)
  {
    if stack != [] && |stack| - 1 <= MaxTreeDepth {
      var top := stack[|stack| - 1];
      if top.pos == |top.tree.entries| {
        PopStep(store, stack, base);
        AdvanceRun(store, stack[..|stack| - 1], Dir(base));
        PopCase(store, stack, base);
      } else {
        match store(top.tree.entries[top.pos].hash)
        case NotFound =>
          AdvancedKeeps(store, stack);
          AdvanceRun(store, Advanced(stack), base);
          SkipCase(store, stack, base);
        case Failed(_) =>
          FailCase(store, stack, base);
        case Found(_) =>
          FoundCase(store, stack, base);
      }
    }
  }

  /** Next keeps the walker's invariant. */
  lemma AdvanceWalking(store: Store, root: Tree, stack: seq<Frame>, base: string)
    requires Walking(store, root, stack, base)
    ensures var o := Advance(store, stack, base);
            var run := StackRun(store, stack);
            && Walking(store, root, o.stack, o.base)
            && (run.items != [] ==> o.result == Yield(run.items[0]) && StackRun(store, o.stack) == Run(run.items[1..], run.stop))
            && (run.items == [] ==> o.result == Stopped(StopError(run.stop)))
            && (run.items == [] && run.stop.None? ==> o.stack == [])
  {
    AdvanceRun(store, stack, base);
  }

  // ---------------------------------------------------------------------------
  // Properties of one call of Next

  /** An empty stack gives io.EOF and stays empty, and io.EOF always leaves the stack empty, so io.EOF repeats. */
  lemma {:induction false} EOFIsTerminal(store: Store, stack: seq<Frame>, base: string)
    requires InRange(stack)
    ensures Advance(store, [], base) == Outcome(Stopped(EOF), [], base)
    ensures Advance(store, stack, base).result == Stopped(EOF) ==> Advance(store, stack, base).stack == []
    decreases |stack|, TopLeft(stack)
  {
    if stack != [] && |stack| - 1 <= MaxTreeDepth {
      var current := |stack| - 1;
      var top := stack[current];
      if top.pos == |top.tree.entries| {
        PopAdvance(store, stack, base);
        EOFIsTerminal(store, stack[..current], Dir(base));
      } else {
        AdvanceEntry(store, stack, base);
        if store(top.tree.entries[top.pos].hash).NotFound? {
          EOFIsTerminal(store, Advanced(stack), base);
        }
      }
    }
  }

  /**
    Next fails with ErrMaxTreeDepth exactly when the stack's top index,
    |stack| - 1, exceeds MaxTreeDepth, and then changes nothing, so every later
    call fails the same way.
   */
  lemma {:induction false} MaxDepthIsSticky(store: Store, stack: seq<Frame>, base: string)
    requires InRange(stack)
    ensures var o := Advance(store, stack, base);
            (o.result == Stopped(ErrMaxTreeDepth)) <==> |stack| - 1 > MaxTreeDepth
    ensures |stack| - 1 > MaxTreeDepth ==> Advance(store, stack, base) == Outcome(Stopped(ErrMaxTreeDepth), stack, base)
    decreases |stack|, TopLeft(stack)
  {
    if stack != [] && |stack| - 1 <= MaxTreeDepth {
      var current := |stack| - 1;
      var top := stack[current];
      if top.pos == |top.tree.entries| {
        PopAdvance(store, stack, base);
        MaxDepthIsSticky(store, stack[..current], Dir(base));
      } else {
        AdvanceEntry(store, stack, base);
        if store(top.tree.entries[top.pos].hash).NotFound? {
          MaxDepthIsSticky(store, Advanced(stack), base);
        }
      }
    }
  }

  /**
    The state a yield leaves, read off the outcome alone: for a tree, the top
    frame is (tree, 0), the frame below it has just produced the entry, and the
    new base is the yielded path; otherwise the top frame has just produced the
    entry and the yielded path is the new base joined with the entry's name.
    Either way the object is the one the store gives for the entry's hash.
   */
  predicate YieldShaped(store: Store, o: Outcome) {
    o.result.Yield? ==>
      var it := o.result.item;
      var k := if it.obj.TreeObject? then |o.stack| - 2 else |o.stack| - 1;
      && 0 <= k
      && 0 < o.stack[k].pos <= |o.stack[k].tree.entries|
      && o.stack[k].tree.entries[o.stack[k].pos - 1] == it.entry
      && store(it.entry.hash) == Found(it.obj)
      && (it.obj.TreeObject? ==> o.stack[|o.stack| - 1] == Frame(it.obj.tree, 0) && o.base == it.name)
      && (!it.obj.TreeObject? ==> it.name == JoinName(o.base, it.entry.name))
  }

  /** The yield of the top frame's next entry has that shape. */
  lemma YieldHere(store: Store, stack: seq<Frame>, base: string)
    requires InRange(stack) && stack != [] && |stack| - 1 <= MaxTreeDepth
    requires stack[|stack| - 1].pos < |stack[|stack| - 1].tree.entries|
    requires store(stack[|stack| - 1].tree.entries[stack[|stack| - 1].pos].hash).Found?
    ensures YieldShaped(store, Advance(store, stack, base))
  {
    AdvanceEntry(store, stack, base);
    var a := Advanced(stack);
    assert a[|stack| - 1] == Frame(stack[|stack| - 1].tree, stack[|stack| - 1].pos + 1);
  }

  /**
    Every yield of Next has the shape above, whatever pops and skips came
    before it in the same call (the pass that yields is described, against
    the stack it starts from, by AdvanceEntry).
   */
  lemma {:induction false} YieldShape(store: Store, stack: seq<Frame>, base: string)
    requires InRange(stack)
    ensures YieldShaped(store, Advance(store, stack, base))
    decreases |stack|, TopLeft(stack)
  {
    if stack != [] && |stack| - 1 <= MaxTreeDepth {
      var current := |stack| - 1;
      var top := stack[current];
      if top.pos == |top.tree.entries| {
        PopAdvance(store, stack, base);
        YieldShape(store, stack[..current], Dir(base));
      } else {
        AdvanceEntry(store, stack, base);
        match store(top.tree.entries[top.pos].hash)
        case NotFound => YieldShape(store, Advanced(stack), base);
        case Failed(_) =>
        case Found(_) => YieldHere(store, stack, base);
      }
    }
  }

  /**
    The depth guard bounds the stack: Next refuses to advance a stack whose top
    index exceeds MaxTreeDepth, so a push can take it to MaxTreeDepth + 2 frames
    and no further.
   */
  lemma {:induction false} StackBounded(store: Store, stack: seq<Frame>, base: string)
    requires InRange(stack) && |stack| <= MaxTreeDepth + 2
    ensures |Advance(store, stack, base).stack| <= MaxTreeDepth + 2
    decreases |stack|, TopLeft(stack)
  {
    if stack != [] && |stack| - 1 <= MaxTreeDepth {
      var current := |stack| - 1;
      var top := stack[current];
      if top.pos == |top.tree.entries| {
        PopAdvance(store, stack, base);
        StackBounded(store, stack[..current], Dir(base));
      } else {
        AdvanceEntry(store, stack, base);
        if store(top.tree.entries[top.pos].hash).NotFound? {
          StackBounded(store, Advanced(stack), base);
        }
      }
    }
  }

  // ---------------------------------------------------------------------------
  // Properties of the reference walk

  /** Every subtree reachable from t through the store lies at most d levels below t. */
  predicate Shallow(store: Store, t: Tree, d: nat)
    decreases d
  {
    forall i :: 0 <= i < |t.entries| && store(t.entries[i].hash).Found? && store(t.entries[i].hash).obj.TreeObject? ==>
      d > 0 && Shallow(store, store(t.entries[i].hash).obj.tree, d - 1)
  }

  /** A tree nested within the bound is walked without reaching the depth guard. */
  lemma {:induction false} ShallowRun(store: Store, t: Tree, pos: nat, prefix: seq<Name>, level: nat, d: nat)
    requires pos <= |t.entries| && Shallow(store, t, d) && level + d <= MaxTreeDepth + 1
    ensures FrameRun(store, t, pos, prefix, level).stop != Some(ErrMaxTreeDepth)
    decreases d, |t.entries| - pos
  {
    if pos < |t.entries| {
      var e := t.entries[pos];
      ShallowRun(store, t, pos + 1, prefix, level, d);
      if store(e.hash).Found? && store(e.hash).obj.TreeObject? {
        var sub := store(e.hash).obj.tree;
        assert d > 0 && Shallow(store, sub, d - 1);
        ShallowRun(store, sub, 0, prefix + [e.name], level + 1, d - 1);
      }
    }
  }

  /** A root whose subtrees lie at most MaxTreeDepth levels below it never ends its walk with ErrMaxTreeDepth. */
  lemma ShallowWalk(store: Store, root: Tree)
    requires Shallow(store, root, MaxTreeDepth)
    ensures Walk(store, root).stop != Some(ErrMaxTreeDepth)
  {
    ShallowRun(store, root, 0, [], 1, MaxTreeDepth);
  }

  /** Every item lies under prefix: its path is well formed and splits into prefix, more names, and its own name. */
  predicate Under(it: Item, prefix: seq<Name>) {
    var segs := Split(it.name);
    WellFormed(it.name) && |segs| > |prefix| && segs[..|prefix|] == prefix && segs[|segs| - 1] == it.entry.name
  }

  lemma ThenItems(a: Run, b: Run)
    ensures forall it :: it in Then(a, b).items ==> it in a.items || it in b.items
  {}

  /** The item of an entry reached through prefix lies under prefix. */
  lemma ItemUnder(prefix: seq<Name>, e: TreeEntry, obj: Object)
    ensures Under(Item(Join(prefix + [e.name]), e, obj), prefix)
  {
    SplitJoin(prefix + [e.name]);
    JoinWellFormed(prefix + [e.name]);
    assert (prefix + [e.name])[..|prefix|] == prefix;
  }

  /** Lying under a longer prefix implies lying under a shorter one. */
  lemma UnderDeeper(it: Item, prefix: seq<Name>, n: Name)
    requires Under(it, prefix + [n])
    ensures Under(it, prefix)
  {
    var segs := Split(it.name);
    assert segs[..|prefix| + 1][..|prefix|] == segs[..|prefix|];
  }

  /** The path of every yielded item is the '/'-join of the names from the root to its entry. */
  lemma {:induction false} FrameRunPaths(store: Store, tree: Tree, pos: nat, prefix: seq<Name>, level: nat)
    requires pos <= |tree.entries|
    ensures forall it :: it in FrameRun(store, tree, pos, prefix, level).items ==> Under(it, prefix)
    decreases if level <= MaxTreeDepth + 1 then MaxTreeDepth + 2 - level else 0, |tree.entries| - pos
  {
    if level <= MaxTreeDepth + 1 && pos < |tree.entries| {
      var e := tree.entries[pos];
      var rest := FrameRun(store, tree, pos + 1, prefix, level);
      FrameRunPaths(store, tree, pos + 1, prefix, level);
      if store(e.hash).Found? {
        var obj := store(e.hash).obj;
        var here := Run([Item(Join(prefix + [e.name]), e, obj)], None);
        ItemUnder(prefix, e, obj);
        if obj.TreeObject? {
          var sub := FrameRun(store, obj.tree, 0, prefix + [e.name], level + 1);
          FrameRunPaths(store, obj.tree, 0, prefix + [e.name], level + 1);
          forall it | it in sub.items ensures Under(it, prefix) {
            UnderDeeper(it, prefix, e.name);
          }
          ThenItems(sub, rest);
          ThenItems(here, Then(sub, rest));
        } else {
          ThenItems(here, rest);
        }
      }
    }
  }

  /** A tree whose only entry is itself is walked MaxTreeDepth + 2 - level times before ErrMaxTreeDepth ends it. */
  lemma {:induction false} SelfReferenceRun(store: Store, t: Tree, prefix: seq<Name>, level: nat)
    requires |t.entries| == 1 && store(t.entries[0].hash) == Found(TreeObject(t))
    requires level <= MaxTreeDepth + 2
    ensures FrameRun(store, t, 0, prefix, level).stop == Some(ErrMaxTreeDepth)
    ensures |FrameRun(store, t, 0, prefix, level).items| == MaxTreeDepth + 2 - level
    decreases MaxTreeDepth + 2 - level
  {
    if level <= MaxTreeDepth + 1 {
      SelfReferenceRun(store, t, prefix + [t.entries[0].name], level + 1);
    }
  }

  /** The depth guard: walking a self-referencing tree yields MaxTreeDepth + 1 entries, then ErrMaxTreeDepth. */
  lemma SelfReferenceWalk(store: Store, t: Tree)
    requires |t.entries| == 1 && store(t.entries[0].hash) == Found(TreeObject(t))
    ensures Walk(store, t).stop == Some(ErrMaxTreeDepth)
    ensures |Walk(store, t).items| == MaxTreeDepth + 1
  {
    SelfReferenceRun(store, t, [], 1);
  }

  /**
    A root holding the file a.txt and the directory sub, which holds b.txt, is
    walked as a.txt, sub, sub/b.txt and then ends normally.
   */
  lemma ExampleWalk(store: Store, root: Tree, sub: Tree)
    requires |root.entries| == 2 && |sub.entries| == 1
    requires root.entries[0].name == "a.txt" && root.entries[1].name == "sub" && sub.entries[0].name == "b.txt"
    requires store(root.entries[0].hash) == Found(Blob(root.entries[0].hash))
    requires store(root.entries[1].hash) == Found(TreeObject(sub))
    requires store(sub.entries[0].hash) == Found(Blob(sub.entries[0].hash))
    ensures Walk(store, root) == Run([Item("a.txt", root.entries[0], Blob(root.entries[0].hash)),
                                      Item("sub", root.entries[1], TreeObject(sub)),
                                      Item("sub/b.txt", sub.entries[0], Blob(sub.entries[0].hash))], None)
  {
    var a, d, b := root.entries[0], root.entries[1], sub.entries[0];
    assert Join([a.name]) == "a.txt";
    assert Join([d.name]) == "sub";
    assert Join([d.name, b.name]) == "sub/b.txt" by {
      assert [d.name, b.name][..1] == [d.name];
    }
    assert FrameRun(store, sub, 1, [d.name], 2) == Run([], None);
    assert FrameRun(store, sub, 0, [d.name], 2) == Run([Item("sub/b.txt", b, Blob(b.hash))], None) by {
      assert [d.name] + [b.name] == [d.name, b.name];
    }
    assert FrameRun(store, root, 2, [], 1) == Run([], None);
    assert FrameRun(store, root, 1, [], 1)
        == Run([Item("sub", d, TreeObject(sub)), Item("sub/b.txt", b, Blob(b.hash))], None) by {
      assert [] + [d.name] == [d.name];
    }
    assert [] + [a.name] == [a.name];
  }

  /**
    A store failure does not end the walker: on a root whose first entry fails
    with code 7 and whose second is the blob b, Next reports the failure, and
    the following Next yields b, although the run pending at the start held
    nothing but that failure.
   */
  lemma ResumeAfterFailure(store: Store, root: Tree)
    requires |root.entries| == 2 && root.entries[1].name == "b"
    requires store(root.entries[0].hash) == Failed(7)
    requires store(root.entries[1].hash) == Found(Blob(root.entries[1].hash))
    ensures StackRun(store, [Frame(root, 0)]) == Run([], Some(StoreError(7)))
    ensures Advance(store, [Frame(root, 0)], "") == Outcome(Stopped(StoreError(7)), [Frame(root, 1)], "")
    ensures Advance(store, [Frame(root, 1)], "").result == Yield(Item("b", root.entries[1], Blob(root.entries[1].hash)))
  {
    FailStep(store, [Frame(root, 0)], "");
    assert Advanced([Frame(root, 0)]) == [Frame(root, 1)];
    AdvanceEntry(store, [Frame(root, 1)], "");
  }

  // ---------------------------------------------------------------------------
  // The walker

  /** What a ForEach callback returns: nil, core.ErrStop, or another error. */
  datatype Verdict = Continue | Stop | Abort(code: nat)

  /** An error ForEach passes on: one from Next or one from the callback. */
  datatype Failure = NextFailed(err: Error) | CallbackFailed(code: nat)

  /** The index of the first item the callback does not accept, or |items|. */
  function Halt(items: seq<Item>, cb: (string, TreeEntry) -> Verdict): (h: nat)
    ensures h <= |items|
    ensures forall i :: 0 <= i < h ==> cb(items[i].name, items[i].entry) == Continue
    ensures h < |items| ==> cb(items[h].name, items[h].entry) != Continue
  {
    if items == [] then 0
    else if cb(items[0].name, items[0].entry) != Continue then 0
    else 1 + Halt(items[1..], cb)
  }

  /**
    ForEach's result over what is left to yield (tree_walker.go:96-115): the
    first callback error other than ErrStop, or nil for ErrStop; when the
    callback accepts everything, nil at io.EOF and the walk's error otherwise.
   */
  function Visit(run: Run, cb: (string, TreeEntry) -> Verdict): Option<Failure> {
    var h := Halt(run.items, cb);
    if h == |run.items| then
      var err := StopError(run.stop);
      if err == EOF then None else Some(NextFailed(err))
    else
      match cb(run.items[h].name, run.items[h].entry)
      case Abort(code) => Some(CallbackFailed(code))
      case _ => None
  }

  /** When the callback accepted every item, Visit is the walk's own ending. */
  lemma VisitEnd(run: Run, cb: (string, TreeEntry) -> Verdict)
    requires forall i :: 0 <= i < |run.items| ==> cb(run.items[i].name, run.items[i].entry) == Continue
    ensures Halt(run.items, cb) == |run.items|
    ensures Visit(run, cb) == if StopError(run.stop) == EOF then None else Some(NextFailed(StopError(run.stop)))
  {}

  /** When the callback accepted items before j and not item j, Visit is item j's verdict. */
  lemma VisitHalt(run: Run, cb: (string, TreeEntry) -> Verdict, j: nat)
    requires j < |run.items|
    requires forall i :: 0 <= i < j ==> cb(run.items[i].name, run.items[i].entry) == Continue
    requires cb(run.items[j].name, run.items[j].entry) != Continue
    ensures Halt(run.items, cb) == j
    ensures Visit(run, cb) == if cb(run.items[j].name, run.items[j].entry).Abort? then Some(CallbackFailed(cb(run.items[j].name, run.items[j].entry).code)) else None
  {}

  /** ForEach over a root nested within the bound never reports ErrMaxTreeDepth. */
  lemma ShallowVisit(store: Store, root: Tree, cb: (string, TreeEntry) -> Verdict)
    requires Shallow(store, root, MaxTreeDepth)
    ensures Visit(Walk(store, root), cb) != Some(NextFailed(ErrMaxTreeDepth))
  {
    ShallowWalk(store, root);
  }

  /**
    The loop of Next (tree_walker.go:46-93) on a stack and base held as values:
    pop exhausted frames, skip missing objects, and stop at the first yield,
    store failure, empty stack or too-deep stack. It computes Advance.
   */
  method NextLoop(store: Store, stack: seq<Frame>, base: string) returns (r: NextResult, frames: seq<Frame>, path: string)
    requires InRange(stack)
    ensures Outcome(r, frames, path) == Advance(store, stack, base)
  {
    ghost var o := Advance(store, stack, base);
    frames, path := stack, base;
    while true
      invariant InRange(frames)
      invariant Advance(store, frames, path) == o
      decreases |frames|, TopLeft(frames)
    {
      var current := |frames| - 1;
      if current < 0 {
        r := Stopped(EOF);
        break;
      }
      if current > MaxTreeDepth {
        r := Stopped(ErrMaxTreeDepth);
        break;
      }
      var top := frames[current];
      if top.pos == |top.tree.entries| {
        PopAdvance(store, frames, path);
        frames := frames[..current];
        path := Dir(path);
        continue;
      }
      var entry := top.tree.entries[top.pos];
      AdvanceEntry(store, frames, path);
      frames := Advanced(frames);
      match store(entry.hash)
      case NotFound =>
        continue;
      case Failed(code) =>
        r := Stopped(StoreError(code));
        break;
      case Found(obj) =>
        var name := JoinName(path, entry.name);
        if obj.TreeObject? {
          frames := frames + [Frame(obj.tree, 0)];
          path := JoinName(path, entry.name);
        }
        r := Yield(Item(name, entry, obj));
        break;
    }
  }

  class TreeWalker {
    var stack: seq<Frame>
    var base: string
    const store: Store
    const root: Tree

    /** The walker's invariant, and the stack bound the depth guard keeps. */
    ghost predicate Valid()
      reads this
    {
      Walking(store, root, stack, base) && |stack| <= MaxTreeDepth + 2
    }

    /**
      What the walker yields from its current stack up to the first store
      failure, which ends this run; after Next reports that failure, Pending()
      is the reference walk of the stack Next resumes from.
     */
    ghost function Pending(): Run
      reads this
      requires Valid()
    {
      StackRun(store, stack)
    }

    /** NewTreeWalker: one frame at the start of root, an empty base, and the whole walk of root pending. */
    constructor (store: Store, root: Tree)
      ensures Valid()
      ensures this.store == store && this.root == root
      ensures stack == [Frame(root, 0)] && base == ""
      ensures Pending() == Walk(store, root)
    {
      this.store := store;
      this.root := root;
      stack := [Frame(root, 0)];
      base := "";
      new;
      assert stack[..0] == [] && Segments(stack) == [];
      assert StackRun(store, stack[..0]) == Run([], None);
      ghost var walk := Walk(store, root);
      assert walk.items + [] == walk.items;
    }

    /**
      Next: one call of Advance, which yields the first pending item and leaves
      the rest pending. Its loop runs on the walker's stack and base as values
      (NextLoop); the new stack and base are stored before Next returns.
     */
    method Next() returns (r: NextResult)
      requires Valid()
      modifies this
      ensures Valid()
      ensures Outcome(r, stack, base) == Advance(store, old(stack), old(base))
      ensures old(Pending()).items != [] ==>
                r == Yield(old(Pending()).items[0]) && Pending() == Run(old(Pending()).items[1..], old(Pending()).stop)
      ensures old(Pending()).items == [] ==> r == Stopped(StopError(old(Pending()).stop))
      ensures old(Pending()).items == [] && old(Pending()).stop.None? ==> stack == []
    {
      AdvanceWalking(store, root, stack, base);
      StackBounded(store, stack, base);
      var frames, path;
      r, frames, path := NextLoop(store, stack, base);
      stack, base := frames, path;
    }

    /**
      ForEach: hands each pending item to cb until the walk ends or cb objects.
      The result is Visit of what was pending; when cb ended the walk, nothing
      past the item it rejected was consumed.
     */
    method ForEach(cb: (string, TreeEntry) -> Verdict) returns (err: Option<Failure>)
      requires Valid()
      modifies this
      ensures Valid()
      ensures err == Visit(old(Pending()), cb)
      ensures var run := old(Pending()); var h := Halt(run.items, cb);
              h < |run.items| ==> Pending() == Run(run.items[h + 1..], run.stop)
      ensures var run := old(Pending());
              Halt(run.items, cb) == |run.items| && run.stop.None? ==> stack == []
    {
      ghost var run := Pending();
      ghost var j := 0;
      while true
        invariant Valid()
        invariant 0 <= j <= |run.items|
        invariant Pending() == Run(run.items[j..], run.stop)
        invariant forall i :: 0 <= i < j ==> cb(run.items[i].name, run.items[i].entry) == Continue
        decreases |run.items| - j
      {
        var r := Next();
        if j < |run.items| {
          assert run.items[j..][1..] == run.items[j + 1..];
        }
        if r.Stopped? {
          assert j == |run.items|;
          VisitEnd(run, cb);
          err := if r.err == EOF then None else Some(NextFailed(r.err));
          break;
        }
        var v := cb(r.item.name, r.item.entry);
        if v != Continue {
          assert Pending() == Run(run.items[j + 1..], run.stop);
          VisitHalt(run, cb, j);
          err := if v.Abort? then Some(CallbackFailed(v.code)) else None;
          break;
        }
        j := j + 1;
      }
    }

    /** Tree(): nil on an empty stack, else the innermost open tree: root, or the tree the store gives for the entry last entered. */
    method CurrentTree() returns (t: Option<Tree>)
      requires Valid()
      ensures t.None? <==> stack == []
      ensures |stack| == 1 ==> t == Some(root)
      ensures |stack| > 1 ==> t.Some? && store(LastEntry(stack[|stack| - 2]).hash) == Found(TreeObject(t.value))
    {
      var current := |stack| - 1;
      if current < 0 {
        return None;
      }
      return Some(stack[current].tree);
    }

    /** Close: drops every frame; nothing is pending afterwards, so Next reports io.EOF. */
    method Close()
      requires Valid()
      modifies this
      ensures Valid()
      ensures stack == [] && base == old(base)
      ensures Pending() == Run([], None)
    {
      stack := [];
    }
  }
}
