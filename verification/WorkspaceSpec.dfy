/**
  Versioned workspace documents: the rows of the state database, the files of the workspaces and
  the atomic effect that a document write or an active rename must have on both.
*/
module WorkspaceSpec {
  import opened Options

  type WsId = nat
  type Path = string
  type Key = string
  type Version = nat
  type Digest = nat
  newtype Byte = x: int | 0 <= x < 256
  type Bytes = seq<Byte>

  /** document_path_key, which also identifies files, and the content hash. */
  datatype Host = Host(key: Path -> Key, hash: Bytes -> Digest)

  datatype Kind = Notebook | PlainFile
  datatype Workspace = Workspace(active: Path, updatedAt: int)
  datatype Row = Row(kind: Kind, version: Version, digest: Digest, updatedAt: int)

  datatype World = World(
    workspaces: map<WsId, Workspace>,
    docs: map<(WsId, Path), Row>,
    files: map<(WsId, Key), Bytes>)

  /** The rows that name the same document as `path`. */
  function Aliases(h: Host, docs: map<(WsId, Path), Row>, ws: WsId, path: Path): set<(WsId, Path)> {
    set e | e in docs && e.0 == ws && h.key(e.1) == h.key(path)
  }

  /** Where an effectful primitive may raise. */
  datatype Fault = NoFault | RaisesBefore | RaisesAfter

  datatype Outcome =
    | Done
    | RolledBack          // the original exception, after a compensation that did not raise
    | CompensationFailed  // the exception group of both failures

  /******* Document writes *******/

  datatype WriteArgs = WriteArgs(
    ws: WsId, path: Path, data: Bytes, kind: Kind, version: Version, expected: Option<Version>,
    overwrite: bool, allowActive: bool, now: int)

  datatype WriteFaults = WriteFaults(
    query: bool, read: bool, write: Fault, row: bool, commit: bool, undoRead: bool, undo: Fault)

  function FileOf(h: Host, ws: WsId, path: Path): (WsId, Key) {
    (ws, h.key(path))
  }

  ghost predicate VersionMatches(h: Host, w: World, a: WriteArgs) {
    var rows := Aliases(h, w.docs, a.ws, a.path);
    if rows == {} then a.expected.None?
    else exists e :: e in w.docs && rows == {e} && a.expected == Some(w.docs[e].version)
  }

  ghost predicate MayWrite(h: Host, w: World, a: WriteArgs) {
    && a.ws in w.workspaces
    && (a.allowActive || h.key(a.path) != h.key(w.workspaces[a.ws].active))
    && VersionMatches(h, w, a)
  }

  /** The row a permitted write changes: the one alias, or a new one under the given path. */
  ghost function RowOf(h: Host, docs: map<(WsId, Path), Row>, ws: WsId, path: Path): (WsId, Path) {
    var rows := Aliases(h, docs, ws, path);
    if rows == {} then (ws, path) else var e :| e in rows; e
  }

  ghost function Written(h: Host, w: World, a: WriteArgs): World {
    w.(files := w.files[FileOf(h, a.ws, a.path) := a.data],
       docs := w.docs[RowOf(h, w.docs, a.ws, a.path) := Row(a.kind, a.version, h.hash(a.data), a.now)])
  }

  /** The old bytes were read, so the compensation may have to put them back. */
  ghost predicate WriteAttempted(h: Host, w: World, a: WriteArgs, f: WriteFaults) {
    !f.query && MayWrite(h, w, a) && !f.read
  }

  /** The replacement reached the file, whether or not it then raised. */
  ghost predicate WriteLanded(h: Host, w: World, a: WriteArgs, f: WriteFaults) {
    && WriteAttempted(h, w, a, f)
    && !f.write.RaisesBefore?
    && (a.overwrite || FileOf(h, a.ws, a.path) !in w.files)
  }

  ghost predicate FileDiffers(h: Host, w: World, a: WriteArgs) {
    var k := FileOf(h, a.ws, a.path);
    k !in w.files || w.files[k] != a.data
  }

  /**
    A write is atomic over the file and its row. It is done exactly when the guard admits it and
    nothing raises. Otherwise nothing has changed, unless the compensation itself raised; then
    the rows are the old ones and the one file holds the new bytes exactly if they landed and the
    compensation raised before it could take them back.
  */
  ghost predicate WriteSpec(h: Host, w: World, w': World, a: WriteArgs, f: WriteFaults, out: Outcome) {
    && (out.Done? <==> WriteLanded(h, w, a, f) && f.write.NoFault? && !f.row && !f.commit)
    && (out.CompensationFailed? <==>
          && !out.Done? && WriteAttempted(h, w, a, f)
          && (f.undoRead || (WriteLanded(h, w, a, f) && FileDiffers(h, w, a) && !f.undo.NoFault?)))
    && (out.Done? ==> w' == Written(h, w, a))
    && (out.RolledBack? ==> w' == w)
    && (out.CompensationFailed? ==>
          w' == if WriteLanded(h, w, a, f) && (f.undoRead || f.undo.RaisesBefore?)
                then w.(files := w.files[FileOf(h, a.ws, a.path) := a.data]) else w)
  }

  /******* Active renames *******/

  datatype RenameArgs = RenameArgs(ws: WsId, expected: Path, path: Path, now: int)

  datatype RenameFaults = RenameFaults(query: bool, move: Fault, row: bool, commit: bool, undo: Fault)

  ghost predicate MayRename(h: Host, w: World, a: RenameArgs) {
    && a.ws in w.workspaces
    && var active := w.workspaces[a.ws].active;
    && h.key(active) == h.key(a.expected)
    && h.key(active) != h.key(a.path)
    && (Aliases(h, w.docs, a.ws, active) == {} ||
        exists e :: e in w.docs && Aliases(h, w.docs, a.ws, active) == {e})
    && Aliases(h, w.docs, a.ws, a.path) == {}
  }

  ghost predicate MayMove(h: Host, w: World, a: RenameArgs)
    requires a.ws in w.workspaces
  {
    && FileOf(h, a.ws, w.workspaces[a.ws].active) in w.files
    && FileOf(h, a.ws, a.path) !in w.files
  }

  function MovedFiles(files: map<(WsId, Key), Bytes>, src: (WsId, Key), dst: (WsId, Key)): map<(WsId, Key), Bytes>
    requires src in files
  {
    (files - {src})[dst := files[src]]
  }

  ghost function MovedFilesOf(h: Host, w: World, a: RenameArgs): map<(WsId, Key), Bytes>
    requires a.ws in w.workspaces && MayMove(h, w, a)
  {
    MovedFiles(w.files, FileOf(h, a.ws, w.workspaces[a.ws].active), FileOf(h, a.ws, a.path))
  }

  ghost function MovedDocs(h: Host, w: World, a: RenameArgs): map<(WsId, Path), Row>
    requires a.ws in w.workspaces
  {
    var rows := Aliases(h, w.docs, a.ws, w.workspaces[a.ws].active);
    if rows == {} then w.docs
    else
      var e :| e in rows;
      (w.docs - {e})[(a.ws, a.path) := w.docs[e].(updatedAt := a.now)]
  }

  ghost function Renamed(h: Host, w: World, a: RenameArgs): World
    requires a.ws in w.workspaces && MayMove(h, w, a)
  {
    World(w.workspaces[a.ws := Workspace(a.path, a.now)], MovedDocs(h, w, a), MovedFilesOf(h, w, a))
  }

  ghost predicate RenameReached(h: Host, w: World, a: RenameArgs, f: RenameFaults) {
    !f.query && MayRename(h, w, a) && MayMove(h, w, a) && !f.move.RaisesBefore?
  }

  /** The file moved and the rename then raised, so the closure still believes it did not move. */
  ghost predicate TornRename(h: Host, w: World, a: RenameArgs, f: RenameFaults) {
    RenameReached(h, w, a, f) && f.move.RaisesAfter?
  }

  /** A rename is atomic over the file, its row and the workspace, unless it is torn. */
  ghost predicate RenameSpec(h: Host, w: World, w': World, a: RenameArgs, f: RenameFaults, out: Outcome) {
    && (out.Done? <==> RenameReached(h, w, a, f) && f.move.NoFault? && !f.row && !f.commit)
    && (out.CompensationFailed? <==>
          RenameReached(h, w, a, f) && f.move.NoFault? && (f.row || f.commit) && !f.undo.NoFault?)
    && (out.Done? ==> w' == Renamed(h, w, a))
    && (out.RolledBack? && !TornRename(h, w, a, f) ==> w' == w)
    && (out.RolledBack? && TornRename(h, w, a, f) ==> w' == w.(files := MovedFilesOf(h, w, a)))
    && (out.CompensationFailed? ==> w' == if f.undo.RaisesBefore? then w.(files := MovedFilesOf(h, w, a)) else w)
  }
}
