/**
  The byte stream that source_tree_digest feeds to its hash: it depends on the tree alone, and no
  two trees share one.
*/
module SourceDigest {
  import opened Options
  import opened Text

  datatype Inode =
    | Symlink(mode: nat, target: string)
    | Directory(mode: nat)
    | Regular(mode: nat, data: Bytes)
    | Special(mode: nat, stMode: string)  // the decimal text of st_mode

  const ManifestName := ".notebook-launcher-source.sha256"

  function KindByte(i: Inode): Byte {
    match i
    case Symlink(_, _) => 76
    case Directory(_) => 68
    case Regular(_, _) => 70
    case Special(_, _) => 79
  }

  function Payload(i: Inode): Bytes {
    match i
    case Symlink(_, target) => Utf8(target)
    case Directory(_) => []
    case Regular(_, data) => data
    case Special(_, stMode) => Utf8(stMode)
  }

  /** int.to_bytes(width, "big"). */
  function BigEndian(n: nat, width: nat): (r: Bytes)
    ensures |r| == width
  {
    if width == 0 then [] else BigEndian(n / 256, width - 1) + [n % 256]
  }

  function Pow256(n: nat): nat {
    if n == 0 then 1 else 256 * Pow256(n - 1)
  }

  lemma {:induction false} BigEndianInjective(n: nat, m: nat, width: nat)
    requires n < Pow256(width) && m < Pow256(width)
    requires BigEndian(n, width) == BigEndian(m, width)
    ensures n == m
  {
    if width > 0 {
      var a, b := BigEndian(n / 256, width - 1), BigEndian(m / 256, width - 1);
      assert (a + [n % 256])[..width - 1] == a && (b + [m % 256])[..width - 1] == b;
      assert (a + [n % 256])[width - 1] == n % 256 && (b + [m % 256])[width - 1] == m % 256;
      BigEndianInjective(n / 256, m / 256, width - 1);
    }
  }

  function Record(path: string, i: Inode): Bytes {
    [KindByte(i)] + BigEndian(i.mode, 4) + (Field(Utf8(path)) + Field(Payload(i)))
  }

  /** A length-prefixed field. */
  function Field(data: Bytes): Bytes {
    BigEndian(|data|, 8) + data
  }

  type Tree = map<string, Inode>

  function Stream(tree: Tree, paths: seq<string>): Bytes {
    if paths == [] then []
    else
      var p := paths[|paths| - 1];
      var rest := Stream(tree, paths[..|paths| - 1]);
      if p == ManifestName || p !in tree then rest else rest + Record(p, tree[p])
  }

  /******* sorted() *******/

  function Insert(p: string, sorted: seq<string>): seq<string> {
    if sorted == [] || Less(p, sorted[0]) then [p] + sorted else [sorted[0]] + Insert(p, sorted[1..])
  }

  function Sorted(paths: seq<string>): seq<string> {
    if paths == [] then [] else Insert(paths[0], Sorted(paths[1..]))
  }

  ghost predicate Ascending(s: seq<string>) {
    forall i, j :: 0 <= i < j < |s| ==> Less(s[i], s[j])
  }

  ghost predicate Distinct(s: seq<string>) {
    forall i, j :: 0 <= i < j < |s| ==> s[i] != s[j]
  }

  ghost predicate SameElements(s: seq<string>, t: seq<string>) {
    forall p :: p in s <==> p in t
  }

  lemma {:induction false} InsertSorts(p: string, s: seq<string>)
    requires Ascending(s) && p !in s
    ensures Ascending(Insert(p, s))
    ensures forall q :: q in Insert(p, s) <==> q == p || q in s
  {
    if s == [] {
    } else if Less(p, s[0]) {
      forall j | 0 <= j < |s|
        ensures Less(p, s[j])
      {
        if j > 0 {
          LessTransitive(p, s[0], s[j]);
        }
      }
    } else {
      InsertSorts(p, s[1..]);
      LessTotal(p, s[0]);
      var t := Insert(p, s[1..]);
      assert s == [s[0]] + s[1..];
      forall j | 0 <= j < |t|
        ensures Less(s[0], t[j])
      {
        assert t[j] in t;
        if t[j] != p {
          var k :| 0 <= k < |s[1..]| && s[1..][k] == t[j];
          assert s[k + 1] == t[j];
        }
      }
    }
  }

  lemma {:induction false} SortedSorts(paths: seq<string>)
    requires Distinct(paths)
    ensures Ascending(Sorted(paths)) && SameElements(paths, Sorted(paths))
  {
    if paths != [] {
      SortedSorts(paths[1..]);
      assert paths == [paths[0]] + paths[1..];
      InsertSorts(paths[0], Sorted(paths[1..]));
    }
  }

  lemma {:induction false} TailDropsHead(s: seq<string>)
    requires s != [] && Ascending(s)
    ensures forall p :: p in s[1..] <==> p in s && p != s[0]
  {
    forall k | 1 <= k < |s|
      ensures s[k] != s[0]
    {
      LessTotal(s[0], s[k]);
    }
    assert s == [s[0]] + s[1..];
  }

  /** A set of paths has one ascending listing. */
  lemma {:induction false} AscendingUnique(s: seq<string>, t: seq<string>)
    requires Ascending(s) && Ascending(t) && SameElements(s, t)
    ensures s == t
  {
    assert (s != [] ==> s[0] in t) && (t != [] ==> t[0] in s);
    if s != [] {
      var i :| 0 <= i < |t| && t[i] == s[0];
      assert t[0] in s;
      var j :| 0 <= j < |s| && s[j] == t[0];
      LessTotal(s[0], t[0]);
      assert s[0] == t[0];
      TailDropsHead(s);
      TailDropsHead(t);
      AscendingUnique(s[1..], t[1..]);
    }
  }

  /** `listing` is some enumeration of the tree, as rglob gives it. */
  ghost predicate Lists(tree: Tree, listing: seq<string>) {
    Distinct(listing) && forall p :: p in listing <==> p in tree
  }

  lemma {:induction false} EnumerationOrderIrrelevant(tree: Tree, one: seq<string>, other: seq<string>)
    requires Lists(tree, one) && Lists(tree, other)
    ensures Stream(tree, Sorted(one)) == Stream(tree, Sorted(other))
  {
    SortedSorts(one);
    SortedSorts(other);
    AscendingUnique(Sorted(one), Sorted(other));
  }

  lemma {:induction false} Regroup(a: Bytes, b: Bytes, c: Bytes, d: Bytes, e: Bytes)
    ensures a + b + c + d + e == a + ((b + c) + (d + e))
  {
  }

  /** The six updates that one path feeds to the hash. */
  method FeedRecord(fed: Bytes, path: string, inode: Inode) returns (r: Bytes)
    ensures r == fed + Record(path, inode)
  {
    var relative, payload := Utf8(path), Payload(inode);
    var record := [KindByte(inode)];
    record := record + BigEndian(inode.mode, 4);
    record := record + BigEndian(|relative|, 8);
    record := record + relative;
    record := record + BigEndian(|payload|, 8);
    record := record + payload;
    hide *;
    Regroup([KindByte(inode)] + BigEndian(inode.mode, 4), BigEndian(|relative|, 8), relative,
            BigEndian(|payload|, 8), payload);
    r := fed + record;
    RecordIs(path, inode);
  }

  lemma {:induction false} RecordIs(path: string, inode: Inode)
    ensures var relative, payload := Utf8(path), Payload(inode);
            Record(path, inode) == [KindByte(inode)] + BigEndian(inode.mode, 4) +
                                   ((BigEndian(|relative|, 8) + relative) + (BigEndian(|payload|, 8) + payload))
  {
    hide Utf8, Payload, BigEndian;
  }

  /** The digest loop: one record after the other, the manifest of the root left out. */
  method SourceTreeStream(tree: Tree, listing: seq<string>) returns (fed: Bytes)
    requires Lists(tree, listing)
    ensures fed == Stream(tree, Sorted(listing))
  {
    hide Record, Utf8, Less;
    var paths := Sorted(listing);
    SortedSorts(listing);
    fed := [];
    for i := 0 to |paths|
      invariant fed == Stream(tree, paths[..i])
    {
      assert paths[..i + 1][..i] == paths[..i];
      var path := paths[i];
      assert path in paths;
      if path == ManifestName {
        continue;
      }
      fed := FeedRecord(fed, path, tree[path]);
    }
    assert paths[..|paths|] == paths;
  }

  /******* Injectivity *******/

  /** What to_bytes accepts. */
  ghost predicate Fits(path: string, i: Inode) {
    i.mode < Pow256(4) && |Utf8(path)| < Pow256(8) && |Payload(i)| < Pow256(8)
  }

  /******* Reading a record *******/

  /** int.from_bytes(_, "big"): from left to right, times 256 plus the next byte. */
  function ReadBig(b: Bytes): nat {
    if b == [] then 0 else ReadBig(b[..|b| - 1]) * 256 + b[|b| - 1] as nat
  }

  lemma {:induction false} BigEndianReads(n: nat, width: nat)
    requires n < Pow256(width)
    ensures ReadBig(BigEndian(n, width)) == n
  {
    if width > 0 {
      BigEndianReads(n / 256, width - 1);
      var b := BigEndian(n, width);
      assert b[..|b| - 1] == BigEndian(n / 256, width - 1) && b[|b| - 1] as nat == n % 256;
    }
  }

  /** What a reader takes from the front: kind, mode, path and payload by their lengths, and what follows. */
  datatype Fields = Fields(kind: Byte, mode: nat, path: Bytes, payload: Bytes, rest: Bytes)

  function ReadField(b: Bytes): Option<(Bytes, Bytes)> {
    if |b| < 8 then None
    else
      var n := ReadBig(b[..8]);
      if |b| < 8 + n then None else Some((b[8..8 + n], b[8 + n..]))
  }

  function ReadRecord(b: Bytes): Option<Fields> {
    if |b| < 5 then None
    else
      var path := ReadField(b[5..]);
      if path.None? then None
      else
        var payload := ReadField(path.value.1);
        if payload.None? then None
        else Some(Fields(b[0], ReadBig(b[1..5]), path.value.0, payload.value.0, payload.value.1))
  }

  /** The kinds are told apart by their letters. */
  lemma {:induction false} KindLetters(i: Inode)
    ensures KindByte(i) as int ==
            (if i.Symlink? then 'L' else if i.Directory? then 'D' else if i.Regular? then 'F' else 'O') as int
  {
  }

  lemma {:induction false} FieldReads(data: Bytes, rest: Bytes)
    requires |data| < Pow256(8)
    ensures ReadField(Field(data) + rest) == Some((data, rest))
  {
    BigEndianReads(|data|, 8);
    hide BigEndian, Pow256, ReadBig;
    var b := Field(data) + rest;
    assert b[..8] == BigEndian(|data|, 8);
    assert b[8..8 + |data|] == data && b[8 + |data|..] == rest;
  }

  lemma {:induction false} HeaderReads(kind: Bytes, mode: Bytes, paths: Bytes, payload: Bytes, rest: Bytes)
    requires |kind| == 1 && |mode| == 4
    ensures var b := kind + mode + (paths + payload) + rest;
            |b| >= 5 && b[0] == kind[0] && b[1..5] == mode && b[5..] == paths + (payload + rest)
  {
    var b := kind + mode + (paths + payload) + rest;
    assert b == (kind + mode) + (paths + (payload + rest));
  }

  /** A record is read back field by field. */
  lemma {:induction false} RecordReads(path: string, i: Inode, rest: Bytes)
    requires Fits(path, i)
    ensures ReadRecord(Record(path, i) + rest) == Some(Fields(KindByte(i), i.mode, Utf8(path), Payload(i), rest))
  {
    BigEndianReads(i.mode, 4);
    FieldReads(Utf8(path), Field(Payload(i)) + rest);
    FieldReads(Payload(i), rest);
    var kind, mode, paths, payload := [KindByte(i)], BigEndian(i.mode, 4), Field(Utf8(path)), Field(Payload(i));
    assert Record(path, i) == kind + mode + (paths + payload);
    hide BigEndian, Pow256, ReadBig, Utf8, Payload, KindByte, Field, ReadField, Record;
    HeaderReads(kind, mode, paths, payload, rest);
  }

  lemma {:induction false} SplitAt(a: Bytes, b: Bytes, r: Bytes, s: Bytes)
    requires |a| == |b| && a + r == b + s
    ensures a == b && r == s
  {
    assert a == (a + r)[..|a|] && b == (b + s)[..|b|];
    assert r == (a + r)[|a|..] && s == (b + s)[|b|..];
  }

  /** A field can be read back from the front. */
  lemma {:induction false} FieldPrefix(a: Bytes, b: Bytes, r: Bytes, s: Bytes)
    requires |a| < Pow256(8) && |b| < Pow256(8)
    requires Field(a) + r == Field(b) + s
    ensures a == b && r == s
  {
    hide BigEndian, Pow256;
    assert Field(a) + r == BigEndian(|a|, 8) + (a + r);
    assert Field(b) + s == BigEndian(|b|, 8) + (b + s);
    SplitAt(BigEndian(|a|, 8), BigEndian(|b|, 8), a + r, b + s);
    BigEndianInjective(|a|, |b|, 8);
    SplitAt(a, b, r, s);
  }

  lemma {:induction false} InodeFromPayload(i: Inode, j: Inode)
    requires KindByte(i) == KindByte(j) && i.mode == j.mode && Payload(i) == Payload(j)
    ensures i == j
  {
    if i.Symlink? {
      Utf8Injective(i.target, j.target);
    } else if i.Special? {
      Utf8Injective(i.stMode, j.stMode);
    }
  }

  lemma {:induction false} HeaderThen(a: Bytes, x: Bytes, y: Bytes, r: Bytes)
    ensures a + (x + y) + r == a + (x + (y + r))
  {
  }

  lemma {:induction false} RecordPrefix(p: string, i: Inode, q: string, j: Inode, r: Bytes, s: Bytes)
    requires Fits(p, i) && Fits(q, j)
    requires Record(p, i) + r == Record(q, j) + s
    ensures p == q && i == j && r == s
  {
    var a, b := [KindByte(i)] + BigEndian(i.mode, 4), [KindByte(j)] + BigEndian(j.mode, 4);
    var x, y := Field(Payload(i)) + r, Field(Payload(j)) + s;
    HeaderThen(a, Field(Utf8(p)), Field(Payload(i)), r);
    HeaderThen(b, Field(Utf8(q)), Field(Payload(j)), s);
    SplitAt(a, b, Field(Utf8(p)) + x, Field(Utf8(q)) + y);
    SplitAt([KindByte(i)], [KindByte(j)], BigEndian(i.mode, 4), BigEndian(j.mode, 4));
    BigEndianInjective(i.mode, j.mode, 4);
    FieldPrefix(Utf8(p), Utf8(q), x, y);
    Utf8Injective(p, q);
    FieldPrefix(Payload(i), Payload(j), r, s);
    InodeFromPayload(i, j);
  }

  /** The records of a listing, manifest left out. */
  ghost function Visited(tree: Tree, paths: seq<string>): seq<(string, Inode)> {
    if paths == [] then []
    else
      var rest := Visited(tree, paths[1..]);
      if paths[0] == ManifestName || paths[0] !in tree then rest else [(paths[0], tree[paths[0]])] + rest
  }

  ghost function Serial(es: seq<(string, Inode)>): Bytes {
    if es == [] then [] else Record(es[0].0, es[0].1) + Serial(es[1..])
  }

  lemma {:induction false} SerialAppend(es: seq<(string, Inode)>, e: (string, Inode))
    ensures Serial(es + [e]) == Serial(es) + Record(e.0, e.1)
  {
    hide Record;
    if es == [] {
      assert es + [e] == [e] && [e][1..] == [];
      assert Serial([e]) == Record(e.0, e.1) + Serial([]);
    } else {
      SerialAppend(es[1..], e);
      assert (es + [e])[1..] == es[1..] + [e];
      assert Serial(es + [e]) == Record(es[0].0, es[0].1) + (Serial(es[1..]) + Record(e.0, e.1));
    }
  }

  lemma {:induction false} VisitedAppend(tree: Tree, paths: seq<string>, p: string)
    ensures Visited(tree, paths + [p]) ==
            Visited(tree, paths) + (if p == ManifestName || p !in tree then [] else [(p, tree[p])])
  {
    if paths == [] {
      assert paths + [p] == [p] && [p][1..] == [];
    } else {
      VisitedAppend(tree, paths[1..], p);
      assert (paths + [p])[1..] == paths[1..] + [p];
    }
  }

  lemma {:induction false} StreamIsSerial(tree: Tree, paths: seq<string>)
    ensures Stream(tree, paths) == Serial(Visited(tree, paths))
  {
    if paths != [] {
      var most, p := paths[..|paths| - 1], paths[|paths| - 1];
      StreamIsSerial(tree, most);
      assert paths == most + [p];
      VisitedAppend(tree, most, p);
      if p != ManifestName && p in tree {
        SerialAppend(Visited(tree, most), (p, tree[p]));
      } else {
        assert Visited(tree, most) + [] == Visited(tree, most);
      }
    }
  }

  lemma {:induction false} SerialNonEmpty(a: seq<(string, Inode)>)
    ensures Serial(a) == [] <==> a == []
  {
    hide BigEndian, Utf8;
    if a != [] {
      assert |Record(a[0].0, a[0].1)| > 0;
    }
  }

  lemma {:induction false} SerialInjective(a: seq<(string, Inode)>, b: seq<(string, Inode)>)
    requires forall e :: e in a || e in b ==> Fits(e.0, e.1)
    requires Serial(a) == Serial(b)
    ensures a == b
  {
    SerialNonEmpty(a);
    SerialNonEmpty(b);
    hide Record, Fits;
    if a != [] && b != [] {
      assert a[0] in a && b[0] in b;
      RecordPrefix(a[0].0, a[0].1, b[0].0, b[0].1, Serial(a[1..]), Serial(b[1..]));
      SerialInjective(a[1..], b[1..]);
      assert a == [a[0]] + a[1..] && b == [b[0]] + b[1..];
    }
  }

  lemma {:induction false} VisitedExactly(tree: Tree, paths: seq<string>, e: (string, Inode))
    ensures e in Visited(tree, paths) <==> e.0 in paths && e.0 in tree && e.0 != ManifestName && e.1 == tree[e.0]
  {
    if paths != [] {
      VisitedExactly(tree, paths[1..], e);
      assert paths == [paths[0]] + paths[1..];
    }
  }

  /** Listings with the same records come from trees that agree outside the manifest. */
  lemma {:induction false} VisitedDetermines(one: Tree, two: Tree, s: seq<string>, t: seq<string>)
    requires forall p :: p in s <==> p in one
    requires forall p :: p in t <==> p in two
    requires Visited(one, s) == Visited(two, t)
    ensures one - {ManifestName} == two - {ManifestName}
  {
    forall p | p in one && p != ManifestName
      ensures p in two && one[p] == two[p]
    {
      VisitedExactly(one, s, (p, one[p]));
      VisitedExactly(two, t, (p, one[p]));
    }
    forall p | p in two && p != ManifestName
      ensures p in one
    {
      VisitedExactly(two, t, (p, two[p]));
      VisitedExactly(one, s, (p, two[p]));
    }
  }

  /** A listing without the root manifest. */
  ghost function Listed(s: seq<string>): seq<string> {
    if s == [] then [] else if s[0] == ManifestName then Listed(s[1..]) else [s[0]] + Listed(s[1..])
  }

  lemma {:induction false} ListedIs(s: seq<string>, p: string)
    ensures p in Listed(s) <==> p in s && p != ManifestName
  {
    if s != [] {
      ListedIs(s[1..], p);
      assert s == [s[0]] + s[1..];
    }
  }

  lemma {:induction false} ListedAscends(s: seq<string>)
    requires Ascending(s)
    ensures Ascending(Listed(s))
  {
    hide Less;
    if s != [] {
      ListedAscends(s[1..]);
      var t := Listed(s[1..]);
      forall j | 0 <= j < |t|
        ensures Less(s[0], t[j])
      {
        ListedIs(s[1..], t[j]);
        var k :| 0 <= k < |s[1..]| && s[1..][k] == t[j];
        assert s[k + 1] == t[j];
      }
    }
  }

  lemma {:induction false} VisitedListed(tree: Tree, s: seq<string>)
    ensures Visited(tree, s) == Visited(tree, Listed(s))
  {
    if s != [] {
      VisitedListed(tree, s[1..]);
      var t := Listed(s[1..]);
      if s[0] != ManifestName {
        assert ([s[0]] + t)[1..] == t;
      }
    }
  }

  lemma {:induction false} VisitedAgrees(one: Tree, two: Tree, s: seq<string>)
    requires one - {ManifestName} == two - {ManifestName}
    ensures Visited(one, s) == Visited(two, s)
  {
    if s != [] {
      VisitedAgrees(one, two, s[1..]);
      var p := s[0];
      assert p != ManifestName ==> (p in one <==> p in one - {ManifestName}) && (p in two <==> p in two - {ManifestName});
      assert p != ManifestName && p in one ==> one[p] == (one - {ManifestName})[p];
      assert p != ManifestName && p in two ==> two[p] == (two - {ManifestName})[p];
    }
  }

  /** The other direction: trees that agree on everything but the root manifest feed the same stream. */
  lemma {:induction false} StreamDetermined(one: Tree, two: Tree, listOne: seq<string>, listTwo: seq<string>)
    requires Lists(one, listOne) && Lists(two, listTwo)
    requires one - {ManifestName} == two - {ManifestName}
    ensures Stream(one, Sorted(listOne)) == Stream(two, Sorted(listTwo))
  {
    var s, t := Sorted(listOne), Sorted(listTwo);
    SortedSorts(listOne);
    SortedSorts(listTwo);
    ListedAscends(s);
    ListedAscends(t);
    forall p
      ensures p in Listed(s) <==> p in Listed(t)
    {
      ListedIs(s, p);
      ListedIs(t, p);
      assert p != ManifestName ==> (p in one <==> p in one - {ManifestName}) && (p in two <==> p in two - {ManifestName});
    }
    AscendingUnique(Listed(s), Listed(t));
    StreamIsSerial(one, s);
    StreamIsSerial(two, t);
    VisitedListed(one, s);
    VisitedListed(two, t);
    VisitedAgrees(one, two, Listed(s));
  }

  ghost predicate AllFit(tree: Tree) {
    forall p :: p in tree ==> Fits(p, tree[p])
  }

  lemma {:induction false} VisitedFit(tree: Tree, s: seq<string>)
    requires AllFit(tree)
    ensures forall e :: e in Visited(tree, s) ==> Fits(e.0, e.1)
  {
    forall e | e in Visited(tree, s)
      ensures Fits(e.0, e.1)
    {
      VisitedExactly(tree, s, e);
    }
  }

  /** Equal streams come from trees that agree on everything but the root manifest. */
  lemma {:induction false} StreamInjective(one: Tree, two: Tree, listOne: seq<string>, listTwo: seq<string>)
    requires Lists(one, listOne) && Lists(two, listTwo)
    requires AllFit(one) && AllFit(two)
    requires Stream(one, Sorted(listOne)) == Stream(two, Sorted(listTwo))
    ensures one - {ManifestName} == two - {ManifestName}
  {
    var s, t := Sorted(listOne), Sorted(listTwo);
    SortedSorts(listOne);
    SortedSorts(listTwo);
    StreamIsSerial(one, s);
    StreamIsSerial(two, t);
    VisitedFit(one, s);
    VisitedFit(two, t);
    SerialInjective(Visited(one, s), Visited(two, t));
    VisitedDetermines(one, two, s, t);
  }
}
