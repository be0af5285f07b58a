/**
  The repository objects a tree walk consumes: trees, their entries, and the
  object store that resolves an entry's hash to a decoded object.
  Hashing and decoding are not modelled; the store is an injected function.
 */
module Objects {

  /** A content hash; the walker only forwards it to the store. */
  type Hash = seq<bv8>

  /** A path segment as a tree entry carries it: non-empty, without '/', and not "." or "..". */
  type Name = s: string | s != "" && '/' !in s && s != "." && s != ".." witness "a"

  /** One row of a tree: name, file mode and the hash of the object it points at. */
  datatype TreeEntry = TreeEntry(name: Name, mode: nat, hash: Hash)

  /** A directory snapshot: its own hash and its entries in their stored order. */
  datatype Tree = Tree(hash: Hash, entries: seq<TreeEntry>)

  /** A decoded object; only trees are looked into by the walker. */
  datatype Object =
    | Blob(hash: Hash)
    | TreeObject(tree: Tree)
    | Commit(hash: Hash)
    | Tag(hash: Hash)

  /** The store's answer for one hash: the object, ErrObjectNotFound, or any other failure. */
  datatype Lookup = Found(obj: Object) | NotFound | Failed(code: nat)

  /** Repository.Object: side-effect free, so the same hash always gets the same answer. */
  type Store = Hash -> Lookup
}
