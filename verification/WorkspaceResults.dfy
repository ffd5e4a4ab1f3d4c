/** What every run of document writes, copies and active renames keeps. */
module WorkspaceResults {
  import opened Options
  import opened WorkspaceSpec

  datatype Step = Write(a: WriteArgs, wf: WriteFaults) | Rename(b: RenameArgs, rf: RenameFaults)
  datatype Entry = Entry(step: Step, out: Outcome, after: World)

  ghost predicate StepSpec(h: Host, w: World, e: Entry) {
    match e.step
    case Write(a, f) => WriteSpec(h, w, e.after, a, f, e.out)
    case Rename(a, f) => RenameSpec(h, w, e.after, a, f, e.out)
  }

  /** The file of a failed rename stays moved: the move raised after its effect, or moving it back raised. */
  ghost predicate RenameTears(h: Host, w: World, a: RenameArgs, f: RenameFaults, out: Outcome) {
    || (out.RolledBack? && TornRename(h, w, a, f))
    || (out.CompensationFailed? && f.undo.RaisesBefore?)
  }

  /** The new bytes of a failed write stay in the file of a row that hashes others. */
  ghost predicate WriteTears(h: Host, w: World, a: WriteArgs, f: WriteFaults, out: Outcome) {
    && out.CompensationFailed? && WriteLanded(h, w, a, f) && (f.undoRead || f.undo.RaisesBefore?)
    && exists r :: r in Aliases(h, w.docs, a.ws, a.path) && w.docs[r].digest != h.hash(a.data)
  }

  ghost predicate Tears(h: Host, w: World, e: Entry) {
    match e.step
    case Write(a, f) => WriteTears(h, w, a, f, e.out)
    case Rename(a, f) => RenameTears(h, w, a, f, e.out)
  }

  /** The world before the i-th entry of a run that starts in `w0`. */
  ghost function Before(w0: World, run: seq<Entry>, i: nat): World
    requires i <= |run|
  {
    if i == 0 then w0 else run[i - 1].after
  }

  ghost predicate StepAt(h: Host, w0: World, run: seq<Entry>, i: nat)
    requires i < |run|
  {
    StepSpec(h, Before(w0, run, i), run[i])
  }

  ghost predicate IsRun(h: Host, w0: World, run: seq<Entry>) {
    forall i :: 0 <= i < |run| ==> StepAt(h, w0, run, i)
  }

  ghost predicate TearsAt(h: Host, w0: World, run: seq<Entry>, i: nat)
    requires i < |run|
  {
    Tears(h, Before(w0, run, i), run[i])
  }

  /** No step of the run leaves a file torn from its row or from its workspace. */
  ghost predicate Whole(h: Host, w0: World, run: seq<Entry>, n: nat)
    requires n <= |run|
  {
    forall i :: 0 <= i < n ==> !TearsAt(h, w0, run, i)
  }

  ghost predicate Installs(e: Entry) {
    e.step.Write? && e.out.Done?
  }

  /** new_version never repeats a token. */
  ghost predicate FreshVersions(run: seq<Entry>) {
    forall i, j :: 0 <= i < j < |run| && Installs(run[i]) && Installs(run[j]) ==>
      run[i].step.a.version != run[j].step.a.version
  }

  /** A workspace as create leaves it: the notebook exists and no version is recorded. */
  ghost predicate Initial(h: Host, w: World) {
    w.docs == map[] && ActiveExists(h, w)
  }

  /******* One row per document, hashing the bytes that are there *******/

  ghost predicate UniqueKeys(h: Host, docs: map<(WsId, Path), Row>) {
    forall e, e' :: e in docs && e' in docs && e.0 == e'.0 && h.key(e.1) == h.key(e'.1) ==> e == e'
  }

  ghost predicate RowHolds(h: Host, w: World, e: (WsId, Path))
    requires e in w.docs
  {
    FileOf(h, e.0, e.1) in w.files && w.docs[e].digest == h.hash(w.files[FileOf(h, e.0, e.1)])
  }

  ghost predicate RowsHold(h: Host, w: World) {
    forall e :: e in w.docs ==> RowHolds(h, w, e)
  }

  ghost predicate ActiveExists(h: Host, w: World) {
    forall ws :: ws in w.workspaces ==> FileOf(h, ws, w.workspaces[ws].active) in w.files
  }

  ghost predicate Inv(h: Host, w: World) {
    UniqueKeys(h, w.docs) && RowsHold(h, w) && ActiveExists(h, w)
  }

  /** A row other than the written one names another file. */
  lemma {:induction false} OtherRow(h: Host, w: World, a: WriteArgs, e: (WsId, Path))
    requires MayWrite(h, w, a) && e in w.docs && e != RowOf(h, w.docs, a.ws, a.path)
    ensures FileOf(h, e.0, e.1) != FileOf(h, a.ws, a.path)
  {
    assert VersionMatches(h, w, a);
    assert e !in Aliases(h, w.docs, a.ws, a.path);
  }

  lemma {:induction false} WriteKeys(h: Host, w: World, a: WriteArgs)
    requires UniqueKeys(h, w.docs) && MayWrite(h, w, a)
    ensures UniqueKeys(h, Written(h, w, a).docs)
  {
    var r := RowOf(h, w.docs, a.ws, a.path);
    assert FileOf(h, r.0, r.1) == FileOf(h, a.ws, a.path);
    hide MayWrite, RowOf;
    var docs' := Written(h, w, a).docs;
    forall e, e' | e in docs' && e' in docs' && e.0 == e'.0 && h.key(e.1) == h.key(e'.1)
      ensures e == e'
    {
      if e != r {
        OtherRow(h, w, a, e);
      }
      if e' != r {
        OtherRow(h, w, a, e');
      }
    }
  }

  lemma {:induction false} WriteRows(h: Host, w: World, a: WriteArgs)
    requires RowsHold(h, w) && MayWrite(h, w, a)
    ensures RowsHold(h, Written(h, w, a))
  {
    var r := RowOf(h, w.docs, a.ws, a.path);
    assert FileOf(h, r.0, r.1) == FileOf(h, a.ws, a.path);
    hide MayWrite, RowOf;
    var w' := Written(h, w, a);
    forall e | e in w'.docs
      ensures RowHolds(h, w', e)
    {
      if e != r {
        OtherRow(h, w, a, e);
        assert RowHolds(h, w, e);
      }
    }
  }

  lemma {:induction false} WriteInv(h: Host, w: World, a: WriteArgs)
    requires Inv(h, w) && MayWrite(h, w, a)
    ensures Inv(h, Written(h, w, a))
  {
    hide UniqueKeys, RowsHold, MayWrite, RowOf;
    WriteKeys(h, w, a);
    WriteRows(h, w, a);
  }

  /** The rows after a rename: the source's one row, if any, is now the destination's. */
  lemma {:induction false} MovedRow(h: Host, w: World, a: RenameArgs) returns (r: (WsId, Path))
    requires MayRename(h, w, a)
    requires Aliases(h, w.docs, a.ws, w.workspaces[a.ws].active) != {}
    ensures r in w.docs && r.0 == a.ws && h.key(r.1) == h.key(w.workspaces[a.ws].active)
    ensures Aliases(h, w.docs, a.ws, w.workspaces[a.ws].active) == {r}
    ensures MovedDocs(h, w, a) == (w.docs - {r})[(a.ws, a.path) := w.docs[r].(updatedAt := a.now)]
  {
    var rows := Aliases(h, w.docs, a.ws, w.workspaces[a.ws].active);
    r :| r in rows && MovedDocs(h, w, a) == (w.docs - {r})[(a.ws, a.path) := w.docs[r].(updatedAt := a.now)];
  }

  /** Every row but the renamed one names a file that the rename does not touch. */
  lemma {:induction false} RowApart(h: Host, w: World, a: RenameArgs, e: (WsId, Path))
    requires MayRename(h, w, a) && e in w.docs && e in MovedDocs(h, w, a) && e != (a.ws, a.path)
    ensures MovedDocs(h, w, a)[e] == w.docs[e]
    ensures FileOf(h, e.0, e.1) != FileOf(h, a.ws, w.workspaces[a.ws].active)
    ensures FileOf(h, e.0, e.1) != FileOf(h, a.ws, a.path)
  {
    assert e !in Aliases(h, w.docs, a.ws, a.path);
    if Aliases(h, w.docs, a.ws, w.workspaces[a.ws].active) != {} {
      var r := MovedRow(h, w, a);
      assert e in Aliases(h, w.docs, a.ws, w.workspaces[a.ws].active) ==> e == r;
    } else {
      assert e !in Aliases(h, w.docs, a.ws, w.workspaces[a.ws].active);
    }
  }

  lemma {:induction false} RenameRows(h: Host, w: World, a: RenameArgs)
    requires RowsHold(h, w) && MayRename(h, w, a) && MayMove(h, w, a)
    ensures RowsHold(h, Renamed(h, w, a))
  {
    var w' := Renamed(h, w, a);
    var rows := Aliases(h, w.docs, a.ws, w.workspaces[a.ws].active);
    assert (a.ws, a.path) in w.docs ==> (a.ws, a.path) in Aliases(h, w.docs, a.ws, a.path);
    forall e | e in w'.docs
      ensures RowHolds(h, w', e)
    {
      if e == (a.ws, a.path) {
        assert rows != {};
        var r := MovedRow(h, w, a);
        assert RowHolds(h, w, r);
      } else {
        RowApart(h, w, a, e);
        assert RowHolds(h, w, e);
      }
    }
  }

  lemma {:induction false} RenameKeys(h: Host, w: World, a: RenameArgs)
    requires UniqueKeys(h, w.docs) && MayRename(h, w, a)
    ensures UniqueKeys(h, MovedDocs(h, w, a))
  {
    var docs' := MovedDocs(h, w, a);
    forall e, e' | e in docs' && e' in docs' && e.0 == e'.0 && h.key(e.1) == h.key(e'.1)
      ensures e == e'
    {
      if e != (a.ws, a.path) {
        RowApart(h, w, a, e);
      }
      if e' != (a.ws, a.path) {
        RowApart(h, w, a, e');
      }
    }
  }

  lemma {:induction false} RenameInv(h: Host, w: World, a: RenameArgs)
    requires Inv(h, w) && MayRename(h, w, a) && MayMove(h, w, a)
    ensures Inv(h, Renamed(h, w, a))
  {
    hide UniqueKeys, RowsHold, MayRename, MovedDocs;
    RenameRows(h, w, a);
    RenameKeys(h, w, a);
  }

  /** A failed write whose compensation failed leaves the rows alone; the file may hold the new bytes. */
  lemma {:induction false} FailedWriteExactly(h: Host, w: World, a: WriteArgs)
    requires Inv(h, w) && MayWrite(h, w, a)
    ensures Inv(h, w.(files := w.files[FileOf(h, a.ws, a.path) := a.data])) <==>
            forall r :: r in Aliases(h, w.docs, a.ws, a.path) ==> w.docs[r].digest == h.hash(a.data)
  {
    hide MayWrite, UniqueKeys;
    var w' := w.(files := w.files[FileOf(h, a.ws, a.path) := a.data]);
    if forall r :: r in Aliases(h, w.docs, a.ws, a.path) ==> w.docs[r].digest == h.hash(a.data) {
      forall e | e in w'.docs
        ensures RowHolds(h, w', e)
      {
        assert RowHolds(h, w, e);
        assert FileOf(h, e.0, e.1) == FileOf(h, a.ws, a.path) ==> e in Aliases(h, w.docs, a.ws, a.path);
      }
    } else {
      var r :| r in Aliases(h, w.docs, a.ws, a.path) && w.docs[r].digest != h.hash(a.data);
      assert FileOf(h, r.0, r.1) == FileOf(h, a.ws, a.path);
      assert !RowHolds(h, w', r);
    }
  }

  /** Every write, whatever fails, keeps the invariant exactly if it does not tear. */
  lemma {:induction false} WriteExactly(h: Host, w: World, w': World, a: WriteArgs, f: WriteFaults, out: Outcome)
    requires Inv(h, w) && WriteSpec(h, w, w', a, f, out)
    ensures Inv(h, w') <==> !WriteTears(h, w, a, f, out)
  {
    hide Inv, MayWrite, Written, FileDiffers;
    if out.Done? {
      WriteInv(h, w, a);
    } else if out.CompensationFailed? && WriteLanded(h, w, a, f) && (f.undoRead || f.undo.RaisesBefore?) {
      FailedWriteExactly(h, w, a);
    }
  }

  /** The file of the active notebook is gone from the path that the workspace still names. */
  lemma {:induction false} MovedAway(h: Host, w: World, a: RenameArgs)
    requires MayRename(h, w, a) && MayMove(h, w, a)
    ensures !ActiveExists(h, w.(files := MovedFilesOf(h, w, a)))
  {
    var w' := w.(files := MovedFilesOf(h, w, a));
    assert a.ws in w'.workspaces && FileOf(h, a.ws, w'.workspaces[a.ws].active) !in w'.files;
  }

  /** Every rename, whatever fails, keeps the invariant exactly if it does not tear. */
  lemma {:induction false} RenameExactly(h: Host, w: World, w': World, a: RenameArgs, f: RenameFaults, out: Outcome)
    requires Inv(h, w) && RenameSpec(h, w, w', a, f, out)
    ensures Inv(h, w') <==> !RenameTears(h, w, a, f, out)
    ensures ActiveExists(h, w') <==> !RenameTears(h, w, a, f, out)
  {
    hide UniqueKeys, RowsHold, MayRename, MayMove, MovedDocs, MovedFilesOf, ActiveExists, Renamed;
    if out.Done? {
      RenameInv(h, w, a);
    } else if RenameReached(h, w, a, f) {
      MovedAway(h, w, a);
    }
  }

  /** So does every step: it keeps rows, bytes and active notebooks exactly if it does not tear. */
  lemma {:induction false} StepExactly(h: Host, w: World, e: Entry)
    requires Inv(h, w) && StepSpec(h, w, e)
    ensures Inv(h, e.after) <==> !Tears(h, w, e)
  {
    hide Inv, WriteSpec, RenameSpec, WriteTears, RenameTears;
    match e.step
    case Write(a, f) => WriteExactly(h, w, e.after, a, f, e.out);
    case Rename(a, f) => RenameExactly(h, w, e.after, a, f, e.out);
  }

  /** While no step tears, each document has at most one row, and it hashes the bytes at its path. */
  lemma {:induction false} RowsAlwaysHold(h: Host, w0: World, run: seq<Entry>, n: nat)
    requires Initial(h, w0) && IsRun(h, w0, run) && n <= |run| && Whole(h, w0, run, n)
    ensures Inv(h, Before(w0, run, n))
  {
    if n > 0 {
      RowsAlwaysHold(h, w0, run, n - 1);
      assert StepAt(h, w0, run, n - 1) && !TearsAt(h, w0, run, n - 1);
      hide Inv, Initial, IsRun, Whole, StepSpec, Tears;
      StepExactly(h, Before(w0, run, n - 1), run[n - 1]);
    }
  }

  /** That holds at every point of a run exactly if none of its steps tears. */
  lemma {:induction false} RunExactly(h: Host, w0: World, run: seq<Entry>)
    requires Initial(h, w0) && IsRun(h, w0, run)
    ensures (forall n :: 0 <= n <= |run| ==> Inv(h, Before(w0, run, n))) <==> Whole(h, w0, run, |run|)
  {
    if Whole(h, w0, run, |run|) {
      forall n | 0 <= n <= |run|
        ensures Inv(h, Before(w0, run, n))
      {
        RowsAlwaysHold(h, w0, run, n);
      }
    } else {
      var i :| 0 <= i < |run| && TearsAt(h, w0, run, i);
      assert StepAt(h, w0, run, i);
      hide Inv, Initial, IsRun, Whole, StepSpec, Tears;
      if Inv(h, Before(w0, run, i)) {
        StepExactly(h, Before(w0, run, i), run[i]);
        assert !Inv(h, Before(w0, run, i + 1));
      }
    }
  }

  /******* Successful writes to a row form a chain *******/

  /** The successful writes behind each row, oldest first. */
  type Chains = map<(WsId, Path), seq<WriteArgs>>

  ghost function NextChains(h: Host, w: World, c: Chains, e: Entry): Chains {
    if !e.out.Done? then c
    else
      match e.step
      case Write(a, _) =>
        var r := RowOf(h, w.docs, a.ws, a.path);
        c[r := (if r in c then c[r] else []) + [a]]
      case Rename(a, _) =>
        if a.ws !in w.workspaces then c
        else
          var rows := Aliases(h, w.docs, a.ws, w.workspaces[a.ws].active);
          if rows == {} then c
          else
            var r := RowOf(h, w.docs, a.ws, w.workspaces[a.ws].active);
            (c - {r})[(a.ws, a.path) := if r in c then c[r] else []]
  }

  ghost function ChainsAt(h: Host, w0: World, run: seq<Entry>, n: nat): Chains
    requires n <= |run|
  {
    if n == 0 then map[] else NextChains(h, Before(w0, run, n - 1), ChainsAt(h, w0, run, n - 1), run[n - 1])
  }

  /** Each write expected exactly the version that its predecessor installed; the first expected none. */
  ghost predicate Linked(chain: seq<WriteArgs>) {
    && |chain| > 0 && chain[0].expected.None?
    && forall i :: 0 <= i < |chain| - 1 ==> chain[i + 1].expected == Some(chain[i].version)
  }

  ghost predicate ChainBehind(h: Host, row: Row, chain: seq<WriteArgs>) {
    && Linked(chain)
    && var last := chain[|chain| - 1];
    && row.version == last.version && row.digest == h.hash(last.data) && row.kind == last.kind
  }

  ghost predicate ChainsInv(h: Host, w: World, c: Chains) {
    && c.Keys == w.docs.Keys
    && forall e :: e in w.docs ==> ChainBehind(h, w.docs[e], c[e])
  }

  lemma {:induction false} WriteChains(h: Host, w: World, c: Chains, a: WriteArgs)
    requires ChainsInv(h, w, c) && MayWrite(h, w, a)
    ensures var r := RowOf(h, w.docs, a.ws, a.path);
            var c' := c[r := (if r in c then c[r] else []) + [a]];
            ChainsInv(h, Written(h, w, a), c')
  {
    var r := RowOf(h, w.docs, a.ws, a.path);
    var rows := Aliases(h, w.docs, a.ws, a.path);
    var c' := c[r := (if r in c then c[r] else []) + [a]];
    assert VersionMatches(h, w, a);
    if rows == {} {
      assert r !in w.docs by { assert r in w.docs ==> r in rows; }
    } else {
      assert r in rows && ChainBehind(h, w.docs[r], c[r]);
      assert a.expected == Some(w.docs[r].version);
    }
    assert Linked(c'[r]);
  }

  lemma {:induction false} RenameChains(h: Host, w: World, c: Chains, a: RenameArgs)
    requires ChainsInv(h, w, c) && a.ws in w.workspaces
    requires Aliases(h, w.docs, a.ws, w.workspaces[a.ws].active) != {}
    requires exists e :: Aliases(h, w.docs, a.ws, w.workspaces[a.ws].active) == {e}
    ensures var r := RowOf(h, w.docs, a.ws, w.workspaces[a.ws].active);
            r in c && ChainsInv(h, w.(docs := MovedDocs(h, w, a)), (c - {r})[(a.ws, a.path) := c[r]])
  {
    var r := RowOf(h, w.docs, a.ws, w.workspaces[a.ws].active);
    assert Aliases(h, w.docs, a.ws, w.workspaces[a.ws].active) == {r};
    assert r in Aliases(h, w.docs, a.ws, w.workspaces[a.ws].active);
    assert ChainBehind(h, w.docs[r], c[r]);
  }

  lemma {:induction false} StepChains(h: Host, w: World, c: Chains, e: Entry)
    requires ChainsInv(h, w, c) && StepSpec(h, w, e)
    ensures ChainsInv(h, e.after, NextChains(h, w, c, e))
  {
    if e.out.Done? {
      match e.step
      case Write(a, f) =>
        WriteChains(h, w, c, a);
      case Rename(a, f) =>
        if Aliases(h, w.docs, a.ws, w.workspaces[a.ws].active) != {} {
          RenameChains(h, w, c, a);
        }
    }
  }

  /** In every run, whatever fails, the successful writes behind each row form a chain of versions. */
  lemma {:induction false} ChainsHold(h: Host, w0: World, run: seq<Entry>, n: nat)
    requires Initial(h, w0) && IsRun(h, w0, run) && n <= |run|
    ensures ChainsInv(h, Before(w0, run, n), ChainsAt(h, w0, run, n))
  {
    if n > 0 {
      ChainsHold(h, w0, run, n - 1);
      assert StepAt(h, w0, run, n - 1);
      StepChains(h, Before(w0, run, n - 1), ChainsAt(h, w0, run, n - 1), run[n - 1]);
    }
  }

  /******* No version is consumed twice *******/

  ghost function InstalledBy(run: seq<Entry>, n: nat): set<Version>
    requires n <= |run|
  {
    set i | 0 <= i < n && Installs(run[i]) :: run[i].step.a.version
  }

  ghost function ConsumedBy(run: seq<Entry>, n: nat): set<Version>
    requires n <= |run|
  {
    set i | 0 <= i < n && Installs(run[i]) && run[i].step.a.expected.Some? :: run[i].step.a.expected.value
  }

  /** The versions on rows are installed, pairwise distinct and not consumed yet. */
  ghost predicate Unspent(docs: map<(WsId, Path), Row>, installed: set<Version>, consumed: set<Version>) {
    && (forall e :: e in docs ==> docs[e].version in installed && docs[e].version !in consumed)
    && (forall e, e' :: e in docs && e' in docs && e != e' ==> docs[e].version != docs[e'].version)
    && consumed <= installed
  }

  ghost function Expecting(a: WriteArgs): set<Version> {
    if a.expected.Some? then {a.expected.value} else {}
  }

  lemma {:induction false} VersionsNext(run: seq<Entry>, n: nat)
    requires n < |run|
    ensures InstalledBy(run, n + 1) ==
            InstalledBy(run, n) + (if Installs(run[n]) then {run[n].step.a.version} else {})
    ensures ConsumedBy(run, n + 1) == ConsumedBy(run, n) + (if Installs(run[n]) then Expecting(run[n].step.a) else {})
  {
  }

  lemma {:induction false} WriteUnspent(h: Host, w: World, a: WriteArgs, installed: set<Version>, consumed: set<Version>)
    requires Unspent(w.docs, installed, consumed) && MayWrite(h, w, a) && a.version !in installed
    ensures Unspent(Written(h, w, a).docs, installed + {a.version}, consumed + Expecting(a))
  {
    var r := RowOf(h, w.docs, a.ws, a.path);
    assert VersionMatches(h, w, a);
    assert a.expected.Some? ==> r in w.docs && a.expected.value == w.docs[r].version;
  }

  lemma {:induction false} RenameUnspent(h: Host, w: World, a: RenameArgs, installed: set<Version>, consumed: set<Version>)
    requires Unspent(w.docs, installed, consumed) && MayRename(h, w, a)
    ensures Unspent(MovedDocs(h, w, a), installed, consumed)
  {
    if Aliases(h, w.docs, a.ws, w.workspaces[a.ws].active) != {} {
      var r := MovedRow(h, w, a);
      hide MovedDocs, MayRename, Aliases;
    }
  }

  lemma {:induction false} UnspentHolds(h: Host, w0: World, run: seq<Entry>, n: nat)
    requires Initial(h, w0) && IsRun(h, w0, run) && FreshVersions(run) && n <= |run|
    ensures Unspent(Before(w0, run, n).docs, InstalledBy(run, n), ConsumedBy(run, n))
  {
    if n > 0 {
      UnspentHolds(h, w0, run, n - 1);
      var w := Before(w0, run, n - 1);
      var e := run[n - 1];
      assert StepAt(h, w0, run, n - 1);
      VersionsNext(run, n - 1);
      assert Installs(e) ==> e.step.a.version !in InstalledBy(run, n - 1);
      hide Unspent, MayRename, MovedDocs, InstalledBy, ConsumedBy, IsRun, FreshVersions;
      if Installs(e) {
        WriteUnspent(h, w, e.step.a, InstalledBy(run, n - 1), ConsumedBy(run, n - 1));
      } else if e.out.Done? {
        RenameUnspent(h, w, e.step.b, InstalledBy(run, n - 1), ConsumedBy(run, n - 1));
      }
    }
  }

  /** Two writers with the same expected version never both succeed; an expected version was installed before. */
  lemma {:induction false} NoTwoWritersWin(h: Host, w0: World, run: seq<Entry>, i: nat, j: nat)
    requires Initial(h, w0) && IsRun(h, w0, run) && FreshVersions(run)
    requires i < j < |run| && Installs(run[i]) && Installs(run[j])
    requires run[j].step.a.expected.Some?
    ensures run[i].step.a.expected != run[j].step.a.expected
    ensures exists k :: 0 <= k < j && Installs(run[k]) && run[j].step.a.expected == Some(run[k].step.a.version)
  {
    UnspentHolds(h, w0, run, j);
    assert StepAt(h, w0, run, j);
    var a := run[j].step.a;
    assert VersionMatches(h, Before(w0, run, j), a);
    assert a.expected.value in InstalledBy(run, j) && a.expected.value !in ConsumedBy(run, j);
  }

  /******* The active notebook *******/

  ghost function ActiveBytes(h: Host, w: World, ws: WsId): Bytes
    requires ws in w.workspaces && FileOf(h, ws, w.workspaces[ws].active) in w.files
  {
    w.files[FileOf(h, ws, w.workspaces[ws].active)]
  }

  /** A write that was allowed to change the active notebook of `ws`, and may have. */
  ghost predicate TouchesActive(h: Host, w: World, e: Entry, ws: WsId) {
    && e.step.Write? && e.step.a.allowActive && e.step.a.ws == ws && !e.out.RolledBack?
    && ws in w.workspaces && h.key(e.step.a.path) == h.key(w.workspaces[ws].active)
  }

  ghost predicate TouchesActiveAt(h: Host, w0: World, run: seq<Entry>, i: nat, ws: WsId)
    requires i < |run|
  {
    TouchesActive(h, Before(w0, run, i), run[i], ws)
  }

  /** The active notebook of `ws` is there. */
  ghost predicate HasActive(h: Host, w: World, ws: WsId) {
    ws in w.workspaces && FileOf(h, ws, w.workspaces[ws].active) in w.files
  }

  /** No rename of the run's first n steps tears; writes may fail in any way. */
  ghost predicate RenamesWhole(h: Host, w0: World, run: seq<Entry>, n: nat)
    requires n <= |run|
  {
    forall i :: 0 <= i < n && run[i].step.Rename? ==> !TearsAt(h, w0, run, i)
  }

  lemma {:induction false} ActiveKept(h: Host, w: World, e: Entry, ws: WsId)
    requires StepSpec(h, w, e) && HasActive(h, w, ws)
    requires e.step.Rename? ==> !Tears(h, w, e)
    ensures HasActive(h, e.after, ws)
    ensures !TouchesActive(h, w, e, ws) ==> ActiveBytes(h, e.after, ws) == ActiveBytes(h, w, ws)
  {
  }

  lemma {:induction false} ActiveStays(h: Host, w0: World, run: seq<Entry>, ws: WsId, n: nat)
    requires Initial(h, w0) && IsRun(h, w0, run) && n <= |run| && ws in w0.workspaces && RenamesWhole(h, w0, run, n)
    ensures HasActive(h, Before(w0, run, n), ws)
  {
    if n > 0 {
      ActiveStays(h, w0, run, ws, n - 1);
      assert StepAt(h, w0, run, n - 1);
      assert run[n - 1].step.Rename? ==> !TearsAt(h, w0, run, n - 1);
      hide HasActive, StepSpec, Tears, IsRun, RenamesWhole;
      ActiveKept(h, Before(w0, run, n - 1), run[n - 1], ws);
    }
  }

  /**
    While no rename tears, the active notebook always exists, and its bytes, followed through every
    rename, are only changed by a write to it that was allowed to change the active notebook.
  */
  lemma {:induction false} ActiveNotebookProtected(h: Host, w0: World, run: seq<Entry>, ws: WsId, m: nat, n: nat)
    requires Initial(h, w0) && IsRun(h, w0, run) && m <= n <= |run| && ws in w0.workspaces && RenamesWhole(h, w0, run, n)
    requires forall i :: m <= i < n ==> !TouchesActiveAt(h, w0, run, i, ws)
    ensures HasActive(h, Before(w0, run, m), ws) && HasActive(h, Before(w0, run, n), ws)
    ensures ActiveBytes(h, Before(w0, run, n), ws) == ActiveBytes(h, Before(w0, run, m), ws)
  {
    ActiveStays(h, w0, run, ws, m);
    if m < n {
      ActiveNotebookProtected(h, w0, run, ws, m, n - 1);
      assert StepAt(h, w0, run, n - 1) && !TouchesActiveAt(h, w0, run, n - 1, ws);
      assert run[n - 1].step.Rename? ==> !TearsAt(h, w0, run, n - 1);
      hide StepSpec, Tears, IsRun, RenamesWhole, TouchesActive, Initial;
      ActiveKept(h, Before(w0, run, n - 1), run[n - 1], ws);
    }
  }

  /** A torn rename from a fresh workspace: the directory sync raises after the move, and the rollback believes nothing moved. */
  lemma {:induction false} TornRenameHappens() returns (h: Host, w: World, e: Entry)
    ensures Initial(h, w) && Inv(h, w) && StepSpec(h, w, e)
    ensures e.step.Rename? && e.out.RolledBack? && TornRename(h, w, e.step.b, e.step.rf)
    ensures !ActiveExists(h, e.after) && e.after.workspaces == w.workspaces && e.after.docs == w.docs
  {
    h := Host((p: Path) => p, (b: Bytes) => 0);
    var files: map<(WsId, Key), Bytes> := map[(0, "a") := []];
    w := World(map[0 := Workspace("a", 0)], map[], files);
    var b := RenameArgs(0, "a", "b", 1);
    var after := w.(files := MovedFiles(files, (0, "a"), (0, "b")));
    e := Entry(Rename(b, RenameFaults(false, RaisesAfter, false, false, NoFault)), RolledBack, after);
    assert "a" != "b";
    assert Aliases(h, w.docs, 0, "a") == {} && Aliases(h, w.docs, 0, "b") == {};
    assert FileOf(h, 0, "a") !in after.files;
  }
}
