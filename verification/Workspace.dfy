/**
  The workspace manager over its store, step by step: BEGIN IMMEDIATE, the guard, the file
  primitive, the row statement, COMMIT, and the compensation that runs before every rollback.
*/
module Workspace {
  import opened Options
  import opened S = WorkspaceSpec

  datatype Lookup = NoRow | OneRow(e: (WsId, Path)) | Ambiguous

  class WorkspaceManager {
    const host: Host
    var workspaces: map<WsId, S.Workspace>
    var docs: map<(WsId, Path), Row>
    var files: map<(WsId, Key), Bytes>

    ghost function World(): S.World
      reads this
    {
      S.World(workspaces, docs, files)
    }

    constructor (host: Host)
      ensures this.host == host && World() == S.World(map[], map[], map[])
    {
      this.host := host;
      workspaces, docs, files := map[], map[], map[];
    }

    /** The rows are scanned by key, so two spellings of one path are an ambiguity. */
    method DocumentVersionRow(ws: WsId, path: Path) returns (r: Lookup)
      ensures r.NoRow? <==> Aliases(host, docs, ws, path) == {}
      ensures r.OneRow? ==> Aliases(host, docs, ws, path) == {r.e}
      ensures r.Ambiguous? ==> forall e :: Aliases(host, docs, ws, path) != {e}
    {
      var rows := Aliases(host, docs, ws, path);
      if rows == {} {
        return NoRow;
      }
      var e :| e in rows;
      if rows == {e} {
        return OneRow(e);
      }
      forall other ensures rows != {other} {
        assert rows == {other} ==> e == other;
      }
      return Ambiguous;
    }

    /** The checks of document_write_guard; None when they raise, else the row they found. */
    method WriteGuard(a: WriteArgs, query: bool) returns (row: Option<Lookup>)
      ensures row.Some? <==> !query && MayWrite(host, World(), a)
      ensures row.Some? ==> !row.value.Ambiguous?
      ensures row.Some? && row.value.NoRow? ==> Aliases(host, docs, a.ws, a.path) == {}
      ensures row.Some? && row.value.OneRow? ==> Aliases(host, docs, a.ws, a.path) == {row.value.e}
    {
      if query || a.ws !in workspaces {
        return None;
      }
      if !a.allowActive && host.key(a.path) == host.key(workspaces[a.ws].active) {
        return None;
      }
      var found := DocumentVersionRow(a.ws, a.path);
      if found.OneRow? {
        assert found.e in Aliases(host, docs, a.ws, a.path);
      }
      var admitted := match found
        case NoRow => a.expected.None?
        case OneRow(e) => a.expected.Some? && docs[e].version == a.expected.value
        case Ambiguous => false;
      row := if admitted then Some(found) else None;
    }

    /** The checks of active_notebook_rename_guard; None when they raise, else the row of the active notebook. */
    method RenameGuard(a: RenameArgs, query: bool) returns (row: Option<Lookup>)
      ensures row.Some? <==> !query && MayRename(host, World(), a)
      ensures row.Some? ==> !row.value.Ambiguous?
      ensures row.Some? && row.value.NoRow? ==> Aliases(host, docs, a.ws, workspaces[a.ws].active) == {}
      ensures row.Some? && row.value.OneRow? ==> Aliases(host, docs, a.ws, workspaces[a.ws].active) == {row.value.e}
    {
      if query || a.ws !in workspaces {
        return None;
      }
      var active := workspaces[a.ws].active;
      if host.key(active) != host.key(a.expected) || host.key(active) == host.key(a.path) {
        return None;
      }
      var source := DocumentVersionRow(a.ws, active);
      if source.OneRow? {
        assert source.e in Aliases(host, docs, a.ws, active);
      }
      var destination := DocumentVersionRow(a.ws, a.path);
      row := if source.Ambiguous? || !destination.NoRow? then None else Some(source);
    }

    /** atomic_write_under_root: replace, or create only. */
    method AtomicWrite(k: (WsId, Key), data: Bytes, overwrite: bool, fault: Fault) returns (raised: bool)
      modifies this`files
      ensures raised <==> !fault.NoFault? || (!overwrite && k in old(files))
      ensures files == if fault.RaisesBefore? || (!overwrite && k in old(files)) then old(files)
                       else old(files)[k := data]
    {
      if fault.RaisesBefore? || (!overwrite && k in files) {
        return true;
      }
      files := files[k := data];
      return fault.RaisesAfter?;
    }

    /** unlink_under_root with missing_ok. */
    method Unlink(k: (WsId, Key), fault: Fault) returns (raised: bool)
      modifies this`files
      ensures raised <==> !fault.NoFault?
      ensures files == if fault.RaisesBefore? then old(files) else old(files) - {k}
    {
      if fault.RaisesBefore? {
        return true;
      }
      files := files - {k};
      return fault.RaisesAfter?;
    }

    /** rename_under_root without overwrite. */
    method Move(src: (WsId, Key), dst: (WsId, Key), fault: Fault) returns (raised: bool)
      modifies this`files
      ensures raised <==> !fault.NoFault? || src !in old(files) || dst in old(files)
      ensures files == if fault.RaisesBefore? || src !in old(files) || dst in old(files) then old(files)
                       else MovedFiles(old(files), src, dst)
    {
      if fault.RaisesBefore? || src !in files || dst in files {
        return true;
      }
      files := MovedFiles(files, src, dst);
      return fault.RaisesAfter?;
    }

    /** compensate_write: put the previous bytes back, or remove the file that did not exist. */
    method CompensateWrite(k: (WsId, Key), previous: Option<Bytes>, readFault: bool, fault: Fault)
      returns (raised: bool)
      modifies this`files
      ensures var same := (k in old(files)) == previous.Some? && (previous.Some? ==> old(files)[k] == previous.value);
              && (raised <==> readFault || (!same && !fault.NoFault?))
              && files == if readFault || same || fault.RaisesBefore? then old(files)
                          else if previous.Some? then old(files)[k := previous.value]
                          else old(files) - {k}
    {
      if readFault {
        return true;
      }
      var current := if k in files then Some(files[k]) else None;
      if current == previous {
        return false;
      }
      if previous.Some? {
        raised := AtomicWrite(k, previous.value, true, fault);
      } else {
        raised := Unlink(k, fault);
      }
    }

    /** _write_workspace_document inside document_write_guard inside transaction. */
    method WriteDocument(a: WriteArgs, f: WriteFaults) returns (out: Outcome)
      modifies this`docs, this`files
      ensures WriteSpec(host, old(World()), World(), a, f, out)
    {
      var begun := docs;
      var k := FileOf(host, a.ws, a.path);
      var previous: Option<Bytes> := None;
      var attempted := false;
      var failed := true;

      var row := WriteGuard(a, f.query);
      if row.Some? && !f.read {
        if k in files {
          previous := Some(files[k]);
        }
        attempted := true;
        var raised := AtomicWrite(k, a.data, a.overwrite, f.write);
        if !raised && !f.row {
          var e := if row.value.OneRow? then row.value.e else (a.ws, a.path);
          assert e == RowOf(host, old(docs), a.ws, a.path);
          docs := docs[e := Row(a.kind, a.version, host.hash(a.data), a.now)];
          failed := f.commit;
        }
      }

      if !failed {
        return Done;
      }
      out := RolledBack;
      if attempted {
        var raised := CompensateWrite(k, previous, f.undoRead, f.undo);
        if raised {
          out := CompensationFailed;
        }
      }
      docs := begun;
      RestoredFile(old(files), k, a.data);
    }

    /** Putting back what was read restores the file map. */
    static lemma {:induction false} RestoredFile(files: map<(WsId, Key), Bytes>, k: (WsId, Key), data: Bytes)
      ensures k in files ==> files[k := data][k := files[k]] == files
      ensures k !in files ==> files[k := data] - {k} == files
    {
    }

    /** write_file: the early check reads a record that may be stale; the guard decides. */
    method WriteFile(seen: S.Workspace, a: WriteArgs, f: WriteFaults) returns (out: Outcome)
      modifies this`docs, this`files
      ensures if host.key(a.path) == host.key(seen.active) && !a.allowActive
              then out == RolledBack && World() == old(World())
              else WriteSpec(host, old(World()), World(), a, f, out)
    {
      if host.key(a.path) == host.key(seen.active) && !a.allowActive {
        return RolledBack;
      }
      out := WriteDocument(a, f);
    }

    /** The workspace branch of save_copy; `existing` is the version read before the transaction. */
    method SaveCopy(seen: S.Workspace, ws: WsId, source: Path, path: Path, data: Bytes, version: Version,
                    existing: Option<Version>, overwrite: bool, now: int, f: WriteFaults)
      returns (out: Outcome)
      modifies this`docs, this`files
      ensures if host.key(path) in {host.key(source), host.key(seen.active)} || (existing.Some? && !overwrite)
              then out == RolledBack && World() == old(World())
              else WriteSpec(host, old(World()), World(),
                             WriteArgs(ws, path, data, Notebook, version, existing, overwrite, false, now), f, out)
    {
      if host.key(source) == host.key(path) || host.key(path) == host.key(seen.active) {
        return RolledBack;
      }
      if existing.Some? && !overwrite {
        return RolledBack;
      }
      out := WriteDocument(WriteArgs(ws, path, data, Notebook, version, existing, overwrite, false, now), f);
    }

    /** Moving there and back restores the file map. */
    static lemma {:induction false} MovedBack(files: map<(WsId, Key), Bytes>, src: (WsId, Key), dst: (WsId, Key))
      requires src in files && dst !in files
      ensures var moved := MovedFiles(files, src, dst);
              dst in moved && src !in moved && MovedFiles(moved, dst, src) == files
    {
    }

    /** The row statement of the rename: the source's row, if there is one, gets the new path. */
    method RenamedRows(row: Lookup, a: RenameArgs) returns (renamed: map<(WsId, Path), Row>)
      requires a.ws in workspaces && !row.Ambiguous?
      requires row.NoRow? ==> Aliases(host, docs, a.ws, workspaces[a.ws].active) == {}
      requires row.OneRow? ==> Aliases(host, docs, a.ws, workspaces[a.ws].active) == {row.e}
      ensures forall files :: renamed == MovedDocs(host, S.World(workspaces, docs, files), a)
    {
      if row.NoRow? {
        return docs;
      }
      assert row.e in Aliases(host, docs, a.ws, workspaces[a.ws].active);
      renamed := (docs - {row.e})[(a.ws, a.path) := docs[row.e].(updatedAt := a.now)];
    }

    /** rename_active_notebook inside active_notebook_rename_guard inside transaction. */
    method RenameActiveNotebook(a: RenameArgs, f: RenameFaults) returns (out: Outcome)
      modifies this
      ensures RenameSpec(host, old(World()), World(), a, f, out)
    {
      hide MovedDocs, Aliases, MovedFiles;
      var begunDocs, begunWorkspaces := docs, workspaces;
      var moved := false;
      var failed := true;
      var current := a.expected;

      var row := RenameGuard(a, f.query);
      if row.Some? {
        current := workspaces[a.ws].active;
        var raised := Move(FileOf(host, a.ws, current), FileOf(host, a.ws, a.path), f.move);
        if !raised {
          moved := true;
          if !f.row {
            docs := RenamedRows(row.value, a);
            assert docs == MovedDocs(host, old(World()), a);
            workspaces := workspaces[a.ws := S.Workspace(a.path, a.now)];
            failed := f.commit;
          }
        }
      }

      if !failed {
        return Done;
      }
      out := RolledBack;
      if moved {
        MovedBack(old(files), FileOf(host, a.ws, current), FileOf(host, a.ws, a.path));
        var raised := Move(FileOf(host, a.ws, a.path), FileOf(host, a.ws, current), f.undo);
        if raised {
          out := CompensationFailed;
        }
      }
      docs, workspaces := begunDocs, begunWorkspaces;
    }
  }
}
