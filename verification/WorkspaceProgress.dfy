/** When a document write or an active rename is admitted, and what it then does; by the rows themselves. */
module WorkspaceProgress {
  import opened Options
  import opened WorkspaceSpec
  import opened WorkspaceResults

  /** `e` is a row of the document at `path`. */
  ghost predicate RowUnder(h: Host, docs: map<(WsId, Path), Row>, ws: WsId, path: Path, e: (WsId, Path)) {
    e in docs && e.0 == ws && h.key(e.1) == h.key(path)
  }

  ghost predicate NoRowUnder(h: Host, docs: map<(WsId, Path), Row>, ws: WsId, path: Path) {
    forall e :: !RowUnder(h, docs, ws, path, e)
  }

  lemma {:induction false} AliasesAre(h: Host, docs: map<(WsId, Path), Row>, ws: WsId, path: Path)
    requires UniqueKeys(h, docs)
    ensures Aliases(h, docs, ws, path) == {} <==> NoRowUnder(h, docs, ws, path)
    ensures forall e :: RowUnder(h, docs, ws, path, e) ==> Aliases(h, docs, ws, path) == {e}
  {
    var rows := Aliases(h, docs, ws, path);
    assert forall e :: RowUnder(h, docs, ws, path, e) <==> e in rows;
    forall e | e in rows
      ensures rows == {e}
    {
      assert forall o :: o in rows ==> o == e;
    }
  }

  /******* Writes *******/

  /** The caller may touch the document at all. */
  ghost predicate Addressed(h: Host, w: World, a: WriteArgs) {
    a.ws in w.workspaces && (a.allowActive || h.key(a.path) != h.key(w.workspaces[a.ws].active))
  }

  /** A document without a row is created by a write that expects none. */
  lemma {:induction false} NewDocumentAdmitted(h: Host, w: World, a: WriteArgs)
    requires UniqueKeys(h, w.docs) && Addressed(h, w, a) && NoRowUnder(h, w.docs, a.ws, a.path)
    ensures MayWrite(h, w, a) <==> a.expected.None?
    ensures RowOf(h, w.docs, a.ws, a.path) == (a.ws, a.path)
  {
    AliasesAre(h, w.docs, a.ws, a.path);
  }

  /** A document with a row is replaced by a write that expects that row's version. */
  lemma {:induction false} ReplacementAdmitted(h: Host, w: World, a: WriteArgs, e: (WsId, Path))
    requires UniqueKeys(h, w.docs) && Addressed(h, w, a) && RowUnder(h, w.docs, a.ws, a.path, e)
    ensures MayWrite(h, w, a) <==> a.expected == Some(w.docs[e].version)
    ensures RowOf(h, w.docs, a.ws, a.path) == e
  {
    AliasesAre(h, w.docs, a.ws, a.path);
    var rows := Aliases(h, w.docs, a.ws, a.path);
    assert rows == {e};
    assert RowOf(h, w.docs, a.ws, a.path) in rows;
    if a.expected == Some(w.docs[e].version) {
      assert e in w.docs && rows == {e} && a.expected == Some(w.docs[e].version);
    }
  }

  /** Nothing raises before the commit. */
  predicate Smooth(f: WriteFaults) {
    !f.query && !f.read && f.write.NoFault? && !f.row && !f.commit
  }

  /**
    In a known workspace a smooth write that may touch its document is done exactly if it expects what
    is recorded, no row or the row's version, and may overwrite a file that is there. Then the file holds
    its bytes, and the document's row, the old one or a new one under its path, holds its version.
  */
  lemma {:induction false} SmoothWrite(h: Host, w: World, w': World, a: WriteArgs, f: WriteFaults, out: Outcome)
    requires UniqueKeys(h, w.docs) && WriteSpec(h, w, w', a, f, out) && Smooth(f) && Addressed(h, w, a)
    ensures var k := FileOf(h, a.ws, a.path);
            var fits := a.overwrite || k !in w.files;
            && (NoRowUnder(h, w.docs, a.ws, a.path) ==>
                  && (out.Done? <==> a.expected.None? && fits)
                  && (out.Done? ==> w' == World(w.workspaces, w.docs[(a.ws, a.path) := Row(a.kind, a.version, h.hash(a.data), a.now)],
                                                w.files[k := a.data])))
            && (forall e :: RowUnder(h, w.docs, a.ws, a.path, e) ==>
                  && (out.Done? <==> a.expected == Some(w.docs[e].version) && fits)
                  && (out.Done? ==> w' == World(w.workspaces, w.docs[e := Row(a.kind, a.version, h.hash(a.data), a.now)],
                                                w.files[k := a.data])))
  {
    if NoRowUnder(h, w.docs, a.ws, a.path) {
      NewDocumentAdmitted(h, w, a);
    }
    forall e | RowUnder(h, w.docs, a.ws, a.path, e)
      ensures MayWrite(h, w, a) <==> a.expected == Some(w.docs[e].version)
      ensures RowOf(h, w.docs, a.ws, a.path) == e
    {
      ReplacementAdmitted(h, w, a, e);
    }
    hide MayWrite, RowOf, UniqueKeys, FileDiffers, NoRowUnder, RowUnder;
  }

  /** Outside the workspaces, and for the active notebook unless it is allowed, nothing is written. */
  lemma {:induction false} UnaddressedWrite(h: Host, w: World, w': World, a: WriteArgs, f: WriteFaults, out: Outcome)
    requires WriteSpec(h, w, w', a, f, out) && !Addressed(h, w, a)
    ensures out == RolledBack && w' == w
  {
  }

  /******* Renames *******/

  predicate SmoothRename(f: RenameFaults) {
    !f.query && f.move.NoFault? && !f.row && !f.commit
  }

  /** The rename names the notebook that is active, and a free destination. */
  ghost predicate Renamable(h: Host, w: World, b: RenameArgs) {
    && b.ws in w.workspaces
    && var active := w.workspaces[b.ws].active;
    && h.key(b.expected) == h.key(active) && h.key(b.path) != h.key(active)
    && NoRowUnder(h, w.docs, b.ws, b.path)
  }

  lemma {:induction false} RenameAdmitted(h: Host, w: World, b: RenameArgs)
    requires UniqueKeys(h, w.docs)
    ensures MayRename(h, w, b) <==> Renamable(h, w, b)
  {
    if b.ws in w.workspaces {
      var active := w.workspaces[b.ws].active;
      AliasesAre(h, w.docs, b.ws, b.path);
      AliasesAre(h, w.docs, b.ws, active);
      var rows := Aliases(h, w.docs, b.ws, active);
      if rows != {} {
        var e :| e in rows;
        assert RowUnder(h, w.docs, b.ws, active, e);
      }
    }
  }

  /** A smooth rename is done exactly if it is admitted, the notebook is there and nothing is in its way. */
  lemma {:induction false} SmoothRenameIs(h: Host, w: World, w': World, b: RenameArgs, f: RenameFaults, out: Outcome)
    requires UniqueKeys(h, w.docs) && RenameSpec(h, w, w', b, f, out) && SmoothRename(f)
    ensures out.Done? <==> Renamable(h, w, b) && MayMove(h, w, b)
    ensures !out.Done? ==> out == RolledBack && w' == w
    ensures out.Done? ==>
              var src, dst := FileOf(h, b.ws, w.workspaces[b.ws].active), FileOf(h, b.ws, b.path);
              && w'.workspaces == w.workspaces[b.ws := Workspace(b.path, b.now)]
              && src !in w'.files && dst in w'.files && w'.files[dst] == w.files[src]
              && w'.files - {src, dst} == w.files - {src, dst}
  {
    RenameAdmitted(h, w, b);
    hide MayRename, Renamable, UniqueKeys, MovedDocs;
  }

  /** And the notebook's row, if it has one, goes along with its version, kind and hash. */
  lemma {:induction false} RenamedRow(h: Host, w: World, w': World, b: RenameArgs, f: RenameFaults, out: Outcome)
    requires UniqueKeys(h, w.docs) && RenameSpec(h, w, w', b, f, out) && out.Done?
    ensures NoRowUnder(h, w.docs, b.ws, w.workspaces[b.ws].active) ==> w'.docs == w.docs
    ensures forall e :: RowUnder(h, w.docs, b.ws, w.workspaces[b.ws].active, e) ==>
              w'.docs == (w.docs - {e})[(b.ws, b.path) := w.docs[e].(updatedAt := b.now)]
  {
    AliasesAre(h, w.docs, b.ws, w.workspaces[b.ws].active);
    if !NoRowUnder(h, w.docs, b.ws, w.workspaces[b.ws].active) {
      var r := MovedRow(h, w, b);
    }
  }

  /******* A run that does both *******/

  const Calm := WriteFaults(false, false, NoFault, false, false, false, NoFault)

  function Literal(): Host {
    Host((p: Path) => p, (b: Bytes) => |b|)
  }

  lemma {:induction false} CalmWrite(h: Host, w: World, a: WriteArgs)
    requires MayWrite(h, w, a) && a.overwrite
    ensures WriteSpec(h, w, Written(h, w, a), a, Calm, Done)
  {
    hide MayWrite, Written;
  }

  /** A document is created with version 1 and then replaced by a write that expects it. */
  lemma {:induction false} CreateThenReplace() returns (w0: World, run: seq<Entry>)
    ensures Initial(Literal(), w0) && IsRun(Literal(), w0, run) && FreshVersions(run)
    ensures |run| == 2 && Installs(run[0]) && Installs(run[1])
    ensures run[0].step.a.expected == None && run[1].step.a.expected == Some(run[0].step.a.version)
    ensures (0, "b") in run[1].after.docs && run[1].after.docs[(0, "b")].version == run[1].step.a.version
  {
    var h := Literal();
    w0 := World(map[0 := Workspace("a", 0)], map[], map[(0, "a") := []]);
    var a := WriteArgs(0, "b", [1], PlainFile, 1, None, true, false, 1);
    var b := WriteArgs(0, "b", [2, 3], PlainFile, 2, Some(1), true, false, 2);
    assert "a" != "b";
    NewDocumentAdmitted(h, w0, a);
    var w1 := Written(h, w0, a);
    WriteInv(h, w0, a);
    assert RowUnder(h, w1.docs, 0, "b", (0, "b"));
    ReplacementAdmitted(h, w1, b, (0, "b"));
    var w2 := Written(h, w1, b);
    assert (0, "b") in w2.docs && w2.docs[(0, "b")].version == 2;
    CalmWrite(h, w0, a);
    CalmWrite(h, w1, b);
    hide MayWrite, RowOf, UniqueKeys, Written, WriteSpec;
    run := [Entry(Write(a, Calm), Done, w1), Entry(Write(b, Calm), Done, w2)];
    assert Before(w0, run, 0) == w0 && Before(w0, run, 1) == w1;
    assert StepAt(h, w0, run, 0) && StepAt(h, w0, run, 1);
  }
}
