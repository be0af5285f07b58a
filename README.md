# go-git tree walker and option validation, in Dafny

This project models two parts of go-git's `git` package.

1. **`TreeWalker`.** It walks a tree object and all of its subtrees in pre-order, depth first. It keeps an explicit stack of frames: each frame is an open tree and the index of its next entry. It also keeps `base`, the slash-separated path of the innermost open tree. Every entry is resolved through the repository's object store. An entry whose object is missing is skipped. Any other store failure ends the call with that error. A stack deeper than `maxTreeDepth` fails with `ErrMaxTreeDepth`. `ForEach` drives `Next` with a callback that can stop the walk early with `core.ErrStop`.
2. **The `Validate` methods** of the clone, pull and fetch option records. They fill `RemoteName` (`DefaultRemoteName`, `"origin"`) and `ReferenceName` (`HEAD`) where these are unset. They reject a clone without a URL (`ErrMissingURL`) and a fetch with a refspec that fails its syntax check (`ErrInvalidRefSpec`).

Layout:

- `wrappers.dfy`: `Option`.
- `objects.dfy`: hashes, entry names, tree entries, trees, objects, and the store. The store is a side-effect-free function from a hash to `Found(object)`, `NotFound` or `Failed(code)`.
- `paths.dfy`: the two path operations the walker uses.
  - `JoinName` is `path.Join(base, name)`.
  - `Dir` is `path.Clean` of the directory part of `path.Split`.
  - `Join` builds the path of a list of names. `Split` is its inverse.
- `tree_walker.dfy`: the walker, in three layers.
  - `Advance` is one call of `Next` on a stack and a base, branch for branch.
  - `FrameRun`, `StackRun` and `Walk` define the reference pre-order walk: what a walker yields from its current stack. A missing object contributes nothing. The depth bound ends the walk with `ErrMaxTreeDepth`. A store failure stops the run at that entry with its error. The walker itself has already moved past the failed entry, so a later `Next` resumes with the next entry, and from then on it follows the reference walk of the stack it resumes from.
  - `AdvanceRun` connects the two layers. Each `Next` yields the first item left and leaves exactly the others. With nothing left, it reports how the walk ended.

  The class `TreeWalker` keeps the source's fields (`stack`, `base`, the store and the root). Its invariant `Valid` says five things:
  - every frame's index lies within its tree, and every frame below the top has produced the entry whose subtree sits above it;
  - each such entry resolves to the tree above it;
  - the bottom frame holds the root tree;
  - `base` is the `/`-join of those entries' names;
  - the stack holds at most `MaxTreeDepth + 2` frames.

  Its methods are proved against `Advance` and against `Pending()`, the reference walk of the current stack.
- `options.dfy`: the classes `CloneOptions`, `PullOptions` and `FetchOptions`, with their `Validate` methods.

## Model

| member | source | states |
|---|---|---|
| `TreeWalking.TreeWalker.constructor` | tree_walker.go:27-36 | The stack holds the single frame (root, 0) and `base` is empty. The invariant holds. What is pending is the whole reference walk of the root. |
| `TreeWalking.NextLoop` | tree_walker.go:46-93 | Next's loop, run on the stack and base as values, computes exactly `Advance`: the result, the new stack and the new base. |
| `TreeWalking.TreeWalker.Next` | tree_walker.go:45-94 | The result and the new stack and base are exactly `Advance` of the old ones, computed by `NextLoop` and stored in the fields. The invariant is kept, including the stack bound. The item yielded is the first pending one, and the others stay pending. With nothing pending, the result is the walk's end: `io.EOF` with an empty stack, or the error that cut the walk short. |
| `TreeWalking.Advance` | tree_walker.go:45-94 | One call of `Next`. Every frame index stays within its tree, and the bottom frame's tree never changes. |
| `TreeWalking.AdvanceRun` | tree_walker.go:38-44 | For every stack satisfying the invariant, `Next` follows the reference walk. A non-empty walk gives its first item and leaves the rest. An empty walk gives its stopping error, or `io.EOF` with an empty stack. The new base is the join of the new stack's segments. The links between frames are kept. |
| `TreeWalking.AdvanceWalking` | tree_walker.go:45-94 | `Next` preserves the whole walker invariant, including the root frame and the frame links, and follows the reference walk. |
| `TreeWalking.EOFIsTerminal` | tree_walker.go:47-52 | An empty stack gives `io.EOF` and changes nothing. Whenever `Next` returns `io.EOF` it leaves the stack empty, so every later call returns `io.EOF` as well. |
| `TreeWalking.MaxDepthIsSticky` | tree_walker.go:53-57 | `Next` returns `ErrMaxTreeDepth` exactly when the stack's top index, `len(stack) - 1`, exceeds `MaxTreeDepth`. In that case stack and base are unchanged, so the error repeats. |
| `TreeWalking.StackBounded` | tree_walker.go:53-57 | The depth guard bounds the stack: from a stack of at most `MaxTreeDepth + 2` frames, `Next` never leaves more than `MaxTreeDepth + 2`. |
| `TreeWalking.PopAdvance` | tree_walker.go:59-65 | An exhausted top frame is popped, `base` goes through Split and Clean, and the loop continues on that state. |
| `TreeWalking.PopStep` | tree_walker.go:62-64 | Popping an exhausted frame loses nothing that was pending. The trimmed `base` is exactly the path of the parent frame's segments, so `base` always has one segment per frame below the top. |
| `TreeWalking.AdvanceEntry` | tree_walker.go:59-91 | After the top frame moves past its entry, there are three outcomes. A missing object continues the loop. Another store failure is returned with no frame pushed. A resolved object is yielded under `path.Join(base, name)`; a tree also pushes the frame (tree, 0) and extends `base` by the entry's name. |
| `TreeWalking.SkipStep` | tree_walker.go:71-77 | Skipping an entry whose object is missing changes nothing that is pending. |
| `TreeWalking.FailStep` | tree_walker.go:81-83 | A store failure other than not-found is returned with the top frame already past the entry and no frame pushed. The run pending from the old stack stops there with that error. What is pending from the new stack is the rest of the top frame's walk, then the frames below it. |
| `TreeWalking.ResumeAfterFailure` | tree_walker.go:59-83 | A store failure does not end the walker. Take a root whose first entry fails with code 7 and whose second is the blob `b`. The pending run holds only that failure, `Next` reports it and leaves the frame at index 1, and the following `Next` yields `b`. |
| `TreeWalking.YieldShape` | tree_walker.go:79-91 | Every yield, read off the new state alone, has the same shape. The object is what the store gives for the entry's hash. For a tree, the top frame is (tree, 0), the frame below has just produced the entry, and the new `base` is the yielded path. For any other object, the top frame has just produced the entry, and the yielded path is the new `base` joined with the entry's name. How the yielding pass changes the stack it starts from is stated by `AdvanceEntry`. |
| `TreeWalking.FrameRunPaths` | tree_walker.go:79 | Every yielded path is well formed. It splits into the names from the root to the entry, ending with the entry's own name. |
| `TreeWalking.SelfReferenceRun` | tree_walker.go:53-57 | A tree whose only entry resolves to itself is walked a bounded number of times, fixed by its depth. The walk then ends with `ErrMaxTreeDepth`. |
| `TreeWalking.SelfReferenceWalk` | tree_walker.go:53-57 | From the root, a self-referencing tree yields exactly `MaxTreeDepth + 1` entries before `ErrMaxTreeDepth`. |
| `TreeWalking.ShallowRun` | tree_walker.go:53-57 | A tree whose subtrees lie at most `d` levels below it, walked from a stack height where `d` more levels stay within `MaxTreeDepth`, never ends with `ErrMaxTreeDepth`. |
| `TreeWalking.ShallowWalk` | tree_walker.go:53-57 | A root whose subtrees lie at most `MaxTreeDepth` levels below it is walked without `ErrMaxTreeDepth`. |
| `TreeWalking.ShallowVisit` | tree_walker.go:96-115 | `ForEach` over such a root never returns `ErrMaxTreeDepth`. |
| `TreeWalking.ExampleWalk` | tree_walker.go:38-40 | A root holding `a.txt` and `sub/`, where `sub/` holds `b.txt`, is walked as `a.txt`, `sub`, `sub/b.txt`, then `io.EOF`. |
| `TreeWalking.Halt` | tree_walker.go:107 | The index of the first item the callback does not accept: every earlier item is accepted, and the item at that index, if any, is not. |
| `TreeWalking.TreeWalker.ForEach` | tree_walker.go:96-115 | The result is `Visit` of what was pending. `io.EOF` gives nil. Another `Next` error is returned unchanged. `ErrStop` from the callback gives nil. Another callback error is returned unchanged. After the callback ends the walk, only the items after the rejected one are still pending, so `Next` was not called again. A walk accepted to its end leaves the stack empty. |
| `TreeWalking.TreeWalker.CurrentTree` | tree_walker.go:117-124 | The result is absent exactly when the stack is empty. Otherwise it is the root for a one-frame stack, or the tree the store gives for the entry last entered. Nothing is modified. |
| `TreeWalking.TreeWalker.Close` | tree_walker.go:126-129 | The stack is empty and nothing is pending, so `Next` now returns `io.EOF`. |
| `Paths.JoinName` | tree_walker.go:79 | `path.Join(base, name)`: `name` alone for an empty base, else `base`, `/`, `name`. `Paths.DirJoinName` proves that `Dir` undoes it. `Paths.JoinSnoc` proves that it extends the path of a list of names by one name. |
| `Paths.Dir` | tree_walker.go:63-64 | `path.Clean` of `path.Split`'s directory part is everything before the last `/`, or empty when there is none. The result is a prefix of the path, the character after it is `/`, and no `/` follows. |
| `Paths.Join` | tree_walker.go:90 | The path of a list of names is empty exactly when the list is. |
| `Paths.JoinWellFormed` | tree_walker.go:79 | Every joined path has no leading or trailing `/` and no empty segment. |
| `Paths.SplitJoin` | tree_walker.go:63 | Splitting a joined path gives back its names. |
| `Paths.DirJoinName` | tree_walker.go:63-64 | Split followed by Clean undoes `path.Join(base, name)`, as the pop after a subtree relies on. |
| `Paths.JoinSnoc` | tree_walker.go:90 | Extending `base` by a name gives the path of the names with that name appended. |
| `Paths.LastSlash` | tree_walker.go:63 | The index of the last `/`, or -1. There is no `/` after it. |
| `Options.CloneOptions.constructor` | options.go:21-35 | Every field holds the given value. |
| `Options.CloneOptions.Validate` | options.go:37-52 | An empty URL gives `ErrMissingURL` and changes nothing. Otherwise the result is nil, and `RemoteName` becomes `"origin"` and `ReferenceName` becomes `HEAD` only where they were empty. URL, Auth, SingleBranch and Depth never change. A nil result leaves the options complete. On complete options Validate returns nil and changes nothing, so it is idempotent. |
| `Options.PullOptions.constructor` | options.go:54-64 | Every field holds the given value. |
| `Options.PullOptions.Validate` | options.go:66-77 | Always nil. `RemoteName` becomes `"origin"` and `ReferenceName` becomes `HEAD` only where they were empty. SingleBranch and Depth never change. Validate is idempotent in the same way as for clone. |
| `Options.FetchOptions.constructor` | options.go:79-83 | Every field holds the given value. |
| `Options.FetchOptions.Validate` | options.go:85-94 | `ErrInvalidRefSpec` exactly when some refspec fails `IsValid`, nil otherwise. Nothing is modified. |

## Left out

- `Repository.Object` is a side-effect-free function from hash to lookup result. Object decoding, hashing and the storage behind it are not modelled. A store failure other than not-found is an opaque code.
- `path.Clean("")` is `"."`. So after popping back to the root, Go's `base` is `"."` where the model's is `""`. `path.Join(".", name)` is `name`, so every yielded path and every later `base` agree.
- `maxTreeDepth` is defined outside the modelled files. The model takes it as 1024 (`MaxTreeDepth`).
- TreeWalking.TreeWalker.Pending: describes the walk only up to the first store failure. Once `Next` has returned a `StoreError`, neither `Next`'s nor `ForEach`'s contract relates the new `Pending()` to the old one. The new state is still exact through `Advance`, and `FailStep` and `ResumeAfterFailure` state what comes next. The model also keeps `StoreError` apart from `EOF`. So it cannot express a store that fails with `io.EOF` itself: Go's `ForEach` would then return nil at tree_walker.go:100-101.
- TreeWalking.TreeWalker.Next: along with an error, Go's `Next` also returns the zero or partial name, entry and object. The model returns only the error, since `ForEach`, the only consumer in scope, ignores the rest.
- `treeEntryIter.Next` is defined outside the modelled files. A frame is its tree and index, and it only ever reports the end of its entries. So the non-EOF iterator error branch (tree_walker.go:67-69) cannot occur in the model.
- TreeWalking.TreeWalker.Next: the loop runs in `NextLoop` on the values of `stack` and `base`. `Next` writes the results to the fields once, before returning. No other code runs during one call, so the observable effect is the same as Go's updates in place.
- `startingStackSize` (tree_walker.go:11) is a capacity hint with no observable effect. `Close` setting the slice to nil rather than empty is not distinguished either.
- The `ForEach` callback is a pure function returning `Continue` (nil), `Stop` (`core.ErrStop`) or `Abort(code)` (any other error). Callbacks with side effects are not modelled.
- `config.RefSpec.IsValid` lives in another package. It is passed to `FetchOptions.Validate` as a predicate.
- `common.AuthMethod` is the class's type parameter: carried, never inspected.
- Entry names are assumed non-empty, without `/`, and not `.` or `..`. On other names `path.Join` and `path.Clean` would rewrite the path, and that is not modelled.
- The walker is single-threaded. Concurrent use is out of scope.
