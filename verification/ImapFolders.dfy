/** The folder list: a walk over the table of folders from the root down. */
module ImapFolders {

  // One row of the table of folders.
  datatype Row = Row(title: string, id: int, parent: int, subscribed: bool, intelligent: bool)

  datatype Folder = Folder(id: int, reference: string, name: string, fullName: string,
    attributes: string, subscribed: bool, intelligent: bool)

  // The parent of the folders at the top.
  const ROOT: int := -1

  // ----- what should be listed -----

  // Folder ids are the primary key of the table; cycles of parents are not excluded.
  predicate UniqueIds(rows: seq<Row>) {
    forall i, j :: 0 <= i < j < |rows| ==> rows[i].id != rows[j].id
  }

  function Last(path: seq<Row>): Row
    requires path != []
  {
    path[|path| - 1]
  }

  /** A chain of folders from the top down, each the parent of the next. */
  predicate IsPath(rows: seq<Row>, path: seq<Row>) {
    && path != [] && Last(path) in rows
    && if |path| == 1 then Last(path).parent == ROOT else
         var front := path[..|path| - 1];
         IsPath(rows, front) && Last(path).parent == Last(front).id != ROOT
  }

  function Join(reference: string, name: string): string {
    if reference == "" then name else reference + "/" + name
  }

  function FullName(path: seq<Row>): string {
    if path == [] then "" else Join(FullName(path[..|path| - 1]), Last(path).title)
  }

  // The list entry of the folder at the end of a path.
  function Entry(path: seq<Row>): Folder
    requires path != []
  {
    var r, reference := Last(path), FullName(path[..|path| - 1]);
    Folder(r.id, reference, r.title, FullName(path), "", r.subscribed, r.intelligent)
  }

  lemma SameRow(rows: seq<Row>, a: Row, b: Row)
    requires UniqueIds(rows) && a in rows && b in rows
    ensures a.id == b.id ==> a == b
  {
    var i :| 0 <= i < |rows| && rows[i] == a;
    var j :| 0 <= j < |rows| && rows[j] == b;
  }

  // A folder has one chain of ancestors.
  lemma {:induction false} PathUnique(rows: seq<Row>, p: seq<Row>, q: seq<Row>)
    requires UniqueIds(rows) && IsPath(rows, p) && IsPath(rows, q) && Last(p).id == Last(q).id
    ensures p == q
    decreases |p|
  {
    SameRow(rows, Last(p), Last(q));
    if |p| > 1 {
      PathUnique(rows, p[..|p| - 1], q[..|q| - 1]);
      assert p == p[..|p| - 1] + [Last(p)] && q == q[..|q| - 1] + [Last(q)];
    }
  }

  // ----- names -----

  function Clean(title: string): string {
    seq(|title|, i requires 0 <= i < |title| => if title[i] == '/' then '-' else title[i])
  }

  function CleanRows(rows: seq<Row>): seq<Row> {
    seq(|rows|, i requires 0 <= i < |rows| => rows[i].(title := Clean(rows[i].title)))
  }

  function Titles(path: seq<Row>): seq<string> {
    seq(|path|, i requires 0 <= i < |path| => path[i].title)
  }

  // The parts of a name between the slashes.
  function Split(name: string): (parts: seq<string>)
    ensures |parts| >= 1
  {
    if name == "" then [""]
    else
      var rest := Split(name[1..]);
      if name[0] == '/' then [""] + rest else [[name[0]] + rest[0]] + rest[1..]
  }

  lemma {:induction false} SplitJoined(a: string, b: string)
    requires '/' !in b
    ensures Split(a + "/" + b) == Split(a) + [b]
  {
    if a == "" {
      SplitPlain(b);
      assert (a + "/" + b)[1..] == b;
    } else {
      SplitJoined(a[1..], b);
      assert (a + "/" + b)[1..] == a[1..] + "/" + b;
    }
  }

  lemma {:induction false} SplitPlain(b: string)
    requires '/' !in b
    ensures Split(b) == [b]
  {
    if b != "" {
      SplitPlain(b[1..]);
      assert [b[0]] + b[1..] == b;
    }
  }

  predicate NoSlashes(path: seq<Row>) {
    forall r :: r in path ==> '/' !in r.title
  }

  // Names below a named folder at the top.
  lemma {:induction false} SplitNamed(path: seq<Row>)
    requires path != [] && NoSlashes(path) && path[0].title != ""
    ensures FullName(path) != "" && Split(FullName(path)) == Titles(path)
  {
    var front := path[..|path| - 1];
    assert path == front + [Last(path)];
    assert '/' !in Last(path).title;
    if front == [] {
      SplitPlain(Last(path).title);
      assert FullName(front) == "";
    } else {
      SplitNamed(front);
      SplitJoined(FullName(front), Last(path).title);
    }
    assert Titles(path) == Titles(front) + [Last(path).title];
  }

  lemma {:induction false} SplitCount(path: seq<Row>)
    requires path != [] && NoSlashes(path)
    ensures |Split(FullName(path))| <= |path|
    ensures |path| > 1 && path[0].title == "" ==> |Split(FullName(path))| < |path|
  {
    var front, last := path[..|path| - 1], Last(path).title;
    assert '/' !in last;
    if front != [] {
      SplitCount(front);
    }
    if FullName(front) == "" {
      SplitPlain(last);
    } else {
      SplitJoined(FullName(front), last);
      assert front != [] && (|front| == 1 ==> FullName(front[..0]) == "" && FullName(front) == front[0].title);
    }
  }

  /** The full name gives the names of all ancestors back exactly if the folder is at the
      top or the folder at the top of its path has a name. */
  lemma NamesBackIff(path: seq<Row>)
    requires path != [] && NoSlashes(path)
    ensures Split(FullName(path)) == Titles(path) <==> |path| == 1 || path[0].title != ""
  {
    hide Split, NoSlashes;
    assert |Titles(path)| == |path|;
    if path[0].title != "" {
      SplitNamed(path);
    } else if |path| > 1 {
      SplitCount(path);
    } else {
      assert FullName(path[..0]) == "" && FullName(path) == "";
      SplitPlain("");
      assert Titles(path) == [""];
    }
  }

  // ----- the walk -----

  function Kids(rows: seq<Row>, parent: int): seq<Row> {
    if rows == [] then []
    else (if rows[0].parent == parent then [rows[0]] else []) + Kids(rows[1..], parent)
  }

  lemma {:induction false} KidsFacts(rows: seq<Row>, parent: int)
    requires UniqueIds(rows)
    ensures forall r :: r in Kids(rows, parent) <==> r in rows && r.parent == parent
    ensures UniqueIds(Kids(rows, parent))
  {
    if rows != [] {
      KidsFacts(rows[1..], parent);
      var rest := Kids(rows[1..], parent);
      forall j | 0 <= j < |rest|
        ensures rest[j].id != rows[0].id
      {
        assert rest[j] in rows[1..];
      }
    }
  }

  // The local variables of the walk: the list so far, the parents still to be expanded
  // (the top of the stack is the last one), and those expanded.
  datatype Walk = Walk(result: seq<Folder>, parents: seq<(int, string)>, visited: set<int>)

  // Where an entry of the stack comes from.
  ghost predicate Pushed(listed: seq<seq<Row>>, e: (int, string)) {
    e == (ROOT, "") || (e.0 != ROOT && exists k :: 0 <= k < |listed| && EndsIn(listed[k], e))
  }

  predicate EndsIn(path: seq<Row>, e: (int, string)) {
    path != [] && Last(path).id == e.0 && FullName(path) == e.1
  }

  predicate EndsAt(path: seq<Row>, r: Row) {
    path != [] && Last(path) == r
  }

  // The path of a listed folder.
  ghost predicate PathOf(rows: seq<Row>, w: Walk, pending: seq<Row>, path: seq<Row>, f: Folder) {
    && IsPath(rows, path) && f == Entry(path)
    && Last(path).parent in w.visited && Last(path) !in pending
    && (Last(path).id in w.visited || exists i :: 0 <= i < |w.parents| && w.parents[i].0 == Last(path).id)
  }

  ghost predicate AllPaths(rows: seq<Row>, w: Walk, listed: seq<seq<Row>>, pending: seq<Row>) {
    |listed| == |w.result| && forall k :: 0 <= k < |listed| ==> PathOf(rows, w, pending, listed[k], w.result[k])
  }

  ghost predicate StackGood(w: Walk, listed: seq<seq<Row>>) {
    && (forall i :: 0 <= i < |w.parents| ==> w.parents[i].0 !in w.visited && Pushed(listed, w.parents[i]))
    && (forall i, j :: 0 <= i < j < |w.parents| ==> w.parents[i].0 != w.parents[j].0)
  }

  ghost predicate IsListed(listed: seq<seq<Row>>, r: Row) {
    exists k :: 0 <= k < |listed| && EndsAt(listed[k], r)
  }

  ghost predicate Complete(rows: seq<Row>, w: Walk, listed: seq<seq<Row>>, pending: seq<Row>) {
    forall r :: r in rows && r.parent in w.visited ==> r in pending || IsListed(listed, r)
  }

  predicate DistinctFolders(fs: seq<Folder>) {
    forall j, k :: 0 <= j < k < |fs| ==> fs[j].id != fs[k].id
  }

  /** listed: the paths of the folders listed so far; pending: children of the folder being
      expanded that are still to come. */
  ghost predicate Good(rows: seq<Row>, w: Walk, listed: seq<seq<Row>>, pending: seq<Row>) {
    && AllPaths(rows, w, listed, pending) && DistinctFolders(w.result)
    && StackGood(w, listed) && Complete(rows, w, listed, pending)
    && (ROOT in w.visited || w == Walk([], [(ROOT, "")], {}))
  }

  function Pop(w: Walk): Walk
    requires w.parents != []
  {
    var n := |w.parents| - 1;
    Walk(w.result, w.parents[..n], w.visited + {w.parents[n].0})
  }

  lemma PopGood(rows: seq<Row>, w: Walk, listed: seq<seq<Row>>)
    requires UniqueIds(rows) && Good(rows, w, listed, []) && w.parents != []
    ensures var top := w.parents[|w.parents| - 1];
      Good(rows, Pop(w), listed, Kids(rows, top.0)) && Pushed(listed, top) && top.0 !in w.visited
      && ROOT in Pop(w).visited
  {
    hide IsPath, Entry, Kids, Pushed, IsListed, UniqueIds;
    var n := |w.parents| - 1;
    var top, v := w.parents[n], Pop(w);
    KidsFacts(rows, top.0);
    var kids := Kids(rows, top.0);
    forall k | 0 <= k < |listed|
      ensures PathOf(rows, v, kids, listed[k], w.result[k])
    {
      PopPath(rows, w, kids, listed[k], w.result[k]);
    }
  }

  lemma PopPath(rows: seq<Row>, w: Walk, kids: seq<Row>, path: seq<Row>, f: Folder)
    requires w.parents != [] && PathOf(rows, w, [], path, f)
    requires w.parents[|w.parents| - 1].0 !in w.visited
    requires forall r :: r in kids ==> r.parent == w.parents[|w.parents| - 1].0
    ensures PathOf(rows, Pop(w), kids, path, f)
  {
    hide IsPath, Entry;
    var v := Pop(w);
    assert path != [] by {
      NotEmpty(rows, path);
    }
    if Last(path).id !in v.visited {
      var i :| 0 <= i < |w.parents| && w.parents[i].0 == Last(path).id;
      assert v.parents[i] == w.parents[i];
    }
  }

  lemma NotEmpty(rows: seq<Row>, path: seq<Row>)
    requires IsPath(rows, path)
    ensures path != [] && Last(path) in rows
  {
  }

  // One child of the folder at the top of the stack.
  function Add(w: Walk, reference: string, r: Row): Walk {
    var name := Join(reference, r.title);
    Walk(w.result + [Folder(r.id, reference, r.title, name, "", r.subscribed, r.intelligent)],
      if r.id in w.visited then w.parents else w.parents + [(r.id, name)], w.visited)
  }

  // The path of a child of the folder that e stands for.
  lemma ChildPath(rows: seq<Row>, listed: seq<seq<Row>>, e: (int, string), r: Row) returns (path: seq<Row>)
    requires Pushed(listed, e) && r in rows && r.parent == e.0
    requires forall k :: 0 <= k < |listed| ==> IsPath(rows, listed[k])
    ensures IsPath(rows, path) && Last(path) == r
    ensures Entry(path) == Folder(r.id, e.1, r.title, Join(e.1, r.title), "", r.subscribed, r.intelligent)
  {
    if e == (ROOT, "") {
      path := [r];
    } else {
      var k :| 0 <= k < |listed| && EndsIn(listed[k], e);
      path := listed[k] + [r];
    }
    assert path[..|path| - 1] + [r] == path;
  }

  lemma PushedStays(listed: seq<seq<Row>>, path: seq<Row>, e: (int, string))
    requires Pushed(listed, e)
    ensures Pushed(listed + [path], e)
  {
    if e != (ROOT, "") {
      var k :| 0 <= k < |listed| && EndsIn(listed[k], e);
      assert (listed + [path])[k] == listed[k];
    }
  }

  lemma AddPaths(rows: seq<Row>, w: Walk, listed: seq<seq<Row>>, reference: string, pending: seq<Row>, path: seq<Row>)
    requires pending != [] && AllPaths(rows, w, listed, pending) && UniqueIds(pending) && pending[0].parent in w.visited
    requires IsPath(rows, path) && Last(path) == pending[0]
    requires var r := pending[0];
      Entry(path) == Folder(r.id, reference, r.title, Join(reference, r.title), "", r.subscribed, r.intelligent)
    ensures AllPaths(rows, Add(w, reference, pending[0]), listed + [path], pending[1..])
  {
    hide IsPath, Entry, Join;
    var r, v, all := pending[0], Add(w, reference, pending[0]), listed + [path];
    forall k | 0 <= k < |all|
      ensures PathOf(rows, v, pending[1..], all[k], v.result[k])
    {
      if k < |listed| {
        assert PathOf(rows, w, pending, listed[k], w.result[k]);
        OldPath(rows, w, v, pending, all[k], w.result[k]);
      } else if r.id !in w.visited {
        assert v.parents[|w.parents|].0 == r.id;
      }
    }
  }

  lemma OldPath(rows: seq<Row>, w: Walk, v: Walk, pending: seq<Row>, path: seq<Row>, f: Folder)
    requires pending != [] && PathOf(rows, w, pending, path, f)
    requires v.visited == w.visited && |v.parents| >= |w.parents| && v.parents[..|w.parents|] == w.parents
    ensures PathOf(rows, v, pending[1..], path, f)
  {
    hide Entry;
    if Last(path).id !in w.visited {
      var i :| 0 <= i < |w.parents| && w.parents[i].0 == Last(path).id;
      assert v.parents[i] == w.parents[i];
    }
  }

  // A folder that is still to come is not in the list.
  lemma NewFolder(rows: seq<Row>, w: Walk, listed: seq<seq<Row>>, pending: seq<Row>, r: Row, k: nat)
    requires UniqueIds(rows) && AllPaths(rows, w, listed, pending) && r in pending && r in rows && k < |listed|
    ensures listed[k] != [] && w.result[k].id == Last(listed[k]).id != r.id
  {
    assert PathOf(rows, w, pending, listed[k], w.result[k]);
    NotEmpty(rows, listed[k]);
    SameRow(rows, Last(listed[k]), r);
  }

  lemma AddDistinct(rows: seq<Row>, w: Walk, listed: seq<seq<Row>>, reference: string, pending: seq<Row>, r: Row)
    requires UniqueIds(rows) && AllPaths(rows, w, listed, pending) && r in pending && r in rows
    requires DistinctFolders(w.result)
    ensures DistinctFolders(Add(w, reference, r).result)
  {
    hide AllPaths, UniqueIds, Join;
    forall k | 0 <= k < |w.result|
      ensures w.result[k].id != r.id
    {
      assert |listed| == |w.result| by {
        SameCount(rows, w, listed, pending);
      }
      NewFolder(rows, w, listed, pending, r, k);
    }
  }

  lemma SameCount(rows: seq<Row>, w: Walk, listed: seq<seq<Row>>, pending: seq<Row>)
    requires AllPaths(rows, w, listed, pending)
    ensures |listed| == |w.result|
  {
  }

  lemma AddStack(rows: seq<Row>, w: Walk, listed: seq<seq<Row>>, reference: string, pending: seq<Row>, path: seq<Row>)
    requires UniqueIds(rows) && AllPaths(rows, w, listed, pending) && StackGood(w, listed)
    requires pending != [] && pending[0] in rows && ROOT in w.visited
    requires IsPath(rows, path) && Last(path) == pending[0] && FullName(path) == Join(reference, pending[0].title)
    ensures StackGood(Add(w, reference, pending[0]), listed + [path])
  {
    hide AllPaths, UniqueIds, IsPath, Join, FullName;
    var r, v, all := pending[0], Add(w, reference, pending[0]), listed + [path];
    NotEmpty(rows, path);
    forall i | 0 <= i < |v.parents|
      ensures v.parents[i].0 !in v.visited && Pushed(all, v.parents[i])
    {
      if i < |w.parents| {
        PushedStays(listed, path, w.parents[i]);
      } else {
        assert EndsIn(all[|listed|], v.parents[i]) by {
          assert FullName(path) == v.parents[i].1;
        }
      }
    }
    forall i | 0 <= i < |w.parents|
      ensures w.parents[i].0 != r.id
    {
      assert Pushed(listed, w.parents[i]) && w.parents[i].0 != ROOT;
      var k :| 0 <= k < |listed| && EndsIn(listed[k], w.parents[i]);
      NewFolder(rows, w, listed, pending, r, k);
    }
  }

  lemma AddComplete(rows: seq<Row>, w: Walk, listed: seq<seq<Row>>, reference: string, pending: seq<Row>, path: seq<Row>)
    requires Complete(rows, w, listed, pending) && pending != [] && path != [] && Last(path) == pending[0]
    ensures Complete(rows, Add(w, reference, pending[0]), listed + [path], pending[1..])
  {
    hide Join;
    var all := listed + [path];
    forall r | r in rows && r.parent in w.visited
      ensures r in pending[1..] || IsListed(all, r)
    {
      if r == pending[0] {
        assert EndsAt(all[|listed|], r);
      } else if r in pending {
        assert pending == [pending[0]] + pending[1..];
      } else {
        var k :| 0 <= k < |listed| && EndsAt(listed[k], r);
        assert all[k] == listed[k];
      }
    }
  }

  lemma AddGood(rows: seq<Row>, w: Walk, listed: seq<seq<Row>>, e: (int, string), pending: seq<Row>)
    returns (path: seq<Row>)
    requires UniqueIds(rows) && Good(rows, w, listed, pending) && Pushed(listed, e) && e.0 in w.visited
    requires pending != [] && UniqueIds(pending) && ROOT in w.visited && pending[0] in rows && pending[0].parent == e.0
    ensures Good(rows, Add(w, e.1, pending[0]), listed + [path], pending[1..]) && Pushed(listed + [path], e)
  {
    hide Join, FullName, IsPath, Complete, StackGood, DistinctFolders, UniqueIds;
    forall k | 0 <= k < |listed|
      ensures IsPath(rows, listed[k])
    {
      assert PathOf(rows, w, pending, listed[k], w.result[k]);
    }
    path := ChildPath(rows, listed, e, pending[0]);
    NotEmpty(rows, path);
    AddPaths(rows, w, listed, e.1, pending, path);
    AddDistinct(rows, w, listed, e.1, pending, pending[0]);
    AddStack(rows, w, listed, e.1, pending, path);
    AddComplete(rows, w, listed, e.1, pending, path);
    PushedStays(listed, path, e);
  }

  // ----- the end of the walk -----

  // Every folder with a path is listed.
  lemma {:induction false} AllListed(rows: seq<Row>, w: Walk, listed: seq<seq<Row>>, path: seq<Row>)
    returns (k: nat)
    requires UniqueIds(rows) && Good(rows, w, listed, []) && w.parents == [] && IsPath(rows, path)
    ensures k < |listed| && listed[k] == path && w.result[k] == Entry(path)
    decreases |path|
  {
    hide StackGood, DistinctFolders, UniqueIds, Entry, Pushed;
    var r := Last(path);
    if |path| > 1 {
      var front := path[..|path| - 1];
      var j := AllListed(rows, w, listed, front);
      assert PathOf(rows, w, [], listed[j], w.result[j]);
      assert r.parent in w.visited;
    }
    assert IsListed(listed, r);
    k :| 0 <= k < |listed| && EndsAt(listed[k], r);
    assert PathOf(rows, w, [], listed[k], w.result[k]);
    PathUnique(rows, listed[k], path);
  }

  /** What the walk must deliver: the folders whose chain of parents reaches the root, each
      once, with their full names. */
  ghost predicate ListsAll(rows: seq<Row>, fs: seq<Folder>) {
    && DistinctFolders(fs)
    && (forall f :: f in fs ==> exists path :: IsPath(rows, path) && f == Entry(path))
    && (forall path :: IsPath(rows, path) ==> Entry(path) in fs)
  }

  /** Every folder listed is a row of the table: its title with hyphens for slashes is its name, and
      below a parent, which is listed too, it is named after that parent. */
  lemma ListedRow(rows: seq<Row>, fs: seq<Folder>, f: Folder) returns (i: nat)
    requires ListsAll(CleanRows(rows), fs) && f in fs
    ensures i < |rows| && f.id == rows[i].id && f.subscribed == rows[i].subscribed
    ensures f.intelligent == rows[i].intelligent && f.attributes == "" && |f.name| == |rows[i].title|
    ensures forall j :: 0 <= j < |f.name| ==> f.name[j] == if rows[i].title[j] == '/' then '-' else rows[i].title[j]
    ensures rows[i].parent == -1 ==> f.reference == "" && f.fullName == f.name
    ensures rows[i].parent != -1 ==> exists g ::
      g in fs && g.id == rows[i].parent && f.reference == g.fullName
      && f.fullName == if g.fullName == "" then f.name else g.fullName + "/" + f.name
  {
    var path :| IsPath(CleanRows(rows), path) && f == Entry(path);
    i :| 0 <= i < |rows| && CleanRows(rows)[i] == Last(path);
    var front := path[..|path| - 1];
    if |path| == 1 {
      assert front == [];
    } else {
      assert IsPath(CleanRows(rows), front) && Entry(front) in fs;
      assert Entry(front).fullName == FullName(front);
    }
  }

  lemma WalkDone(rows: seq<Row>, w: Walk, listed: seq<seq<Row>>)
    requires UniqueIds(rows) && Good(rows, w, listed, []) && w.parents == []
    ensures ListsAll(rows, w.result)
  {
    hide Entry;
    forall f | f in w.result
      ensures exists path :: IsPath(rows, path) && f == Entry(path)
    {
      var k :| 0 <= k < |w.result| && w.result[k] == f;
      assert PathOf(rows, w, [], listed[k], w.result[k]);
    }
    forall path | IsPath(rows, path)
      ensures Entry(path) in w.result
    {
      var k := AllListed(rows, w, listed, path);
    }
  }

  lemma WalkStart(rows: seq<Row>)
    ensures Good(rows, Walk([], [(ROOT, "")], {}), [], [])
  {
  }

  // ----- the procedure -----

  function Ids(rows: seq<Row>): set<int> {
    (set r | r in rows :: r.id) + {ROOT}
  }

  method Sanitize(title: string) returns (name: string)
    ensures name == Clean(title)
  {
    name := title;
    var pos := 0;
    while pos < |name|
      invariant 0 <= pos <= |name| == |title|
      invariant forall i :: 0 <= i < |title| ==> name[i] == if i < pos && title[i] == '/' then '-' else title[i]
    {
      if name[pos] == '/' {
        name := name[pos := '-'];
      }
      pos := pos + 1;
    }
  }

  lemma {:induction false} KidsSnoc(rows: seq<Row>, r: Row, parent: int)
    ensures Kids(rows + [r], parent) == Kids(rows, parent) + if r.parent == parent then [r] else []
  {
    if rows == [] {
      assert [r][1..] == [];
    } else {
      KidsSnoc(rows[1..], r, parent);
      assert (rows + [r])[1..] == rows[1..] + [r];
    }
  }

  function Children(foldersByParent: map<int, seq<Row>>, parent: int): seq<Row> {
    if parent in foldersByParent then foldersByParent[parent] else []
  }

  // The map holds the children of every folder, in order.
  ghost predicate Grouped(rows: seq<Row>, foldersByParent: map<int, seq<Row>>) {
    forall parent :: Kids(rows, parent) == Children(foldersByParent, parent)
  }

  lemma GroupStep(rows: seq<Row>, m: map<int, seq<Row>>, f: Row)
    requires Grouped(rows, m)
    ensures Grouped(rows + [f], m[f.parent := Children(m, f.parent) + [f]])
  {
    hide Kids;
    var n := m[f.parent := Children(m, f.parent) + [f]];
    forall parent
      ensures Kids(rows + [f], parent) == Children(n, parent)
    {
      KidsSnoc(rows, f, parent);
      assert Kids(rows, parent) == Children(m, parent);
    }
  }

  lemma CleanSnoc(rows: seq<Row>, i: nat)
    requires i < |rows|
    ensures CleanRows(rows[..i + 1]) == CleanRows(rows[..i]) + [rows[i].(title := Clean(rows[i].title))]
  {
  }

  // The rows by parent, with clean names.
  method Group(rows: seq<Row>) returns (foldersByParent: map<int, seq<Row>>)
    ensures Grouped(CleanRows(rows), foldersByParent)
  {
    foldersByParent := map[];
    for i := 0 to |rows|
      invariant Grouped(CleanRows(rows[..i]), foldersByParent)
    {
      hide Grouped, Children, CleanRows;
      var name := Sanitize(rows[i].title);
      var f := rows[i].(title := name);
      GroupStep(CleanRows(rows[..i]), foldersByParent, f);
      CleanSnoc(rows, i);
      foldersByParent := foldersByParent[f.parent := Children(foldersByParent, f.parent) + [f]];
    }
    assert rows[..|rows|] == rows;
  }

  lemma RestUnique(rows: seq<Row>, i: nat)
    requires UniqueIds(rows) && i <= |rows|
    ensures UniqueIds(rows[i..])
  {
  }

  // Lists the children of one folder.
  method Expand(ghost rows: seq<Row>, w: Walk, e: (int, string), kids: seq<Row>, ghost listed: seq<seq<Row>>)
    returns (v: Walk, ghost all: seq<seq<Row>>)
    requires UniqueIds(rows) && Good(rows, w, listed, kids) && Pushed(listed, e) && e.0 in w.visited
    requires kids == Kids(rows, e.0) && ROOT in w.visited
    ensures Good(rows, v, all, []) && v.visited == w.visited
  {
    hide Good, Join, Pushed, UniqueIds, Kids;
    KidsFacts(rows, e.0);
    v, all := w, listed;
    for i := 0 to |kids|
      invariant Good(rows, v, all, kids[i..]) && Pushed(all, e) && v.visited == w.visited
    {
      var f := kids[i];
      assert kids[i..][0] == f && kids[i..][1..] == kids[i + 1..];
      RestUnique(kids, i);
      ghost var path := AddGood(rows, v, all, e, kids[i..]);
      var fullName := Join(e.1, f.title);
      v := v.(result := v.result + [Folder(f.id, e.1, f.title, fullName, "", f.subscribed, f.intelligent)]);
      if f.id !in v.visited {
        v := v.(parents := v.parents + [(f.id, fullName)]);
      }
      all := all + [path];
    }
    assert kids[|kids|..] == [];
  }

  // Each round expands a folder that has not been expanded before.
  lemma PopProgress(rows: seq<Row>, w: Walk, listed: seq<seq<Row>>)
    requires Good(rows, w, listed, []) && w.parents != []
    ensures var top := w.parents[|w.parents| - 1];
      top.0 in Ids(rows) && Ids(rows) - Pop(w).visited < Ids(rows) - w.visited
    ensures |Ids(rows) - Pop(w).visited| < |Ids(rows) - w.visited|
  {
    hide Complete, DistinctFolders, Entry, FullName;
    var top := w.parents[|w.parents| - 1];
    assert Pushed(listed, top) && top.0 !in w.visited;
    if top.0 != ROOT {
      var k :| 0 <= k < |listed| && EndsIn(listed[k], top);
      assert PathOf(rows, w, [], listed[k], w.result[k]);
    }
    assert Ids(rows) - Pop(w).visited == (Ids(rows) - w.visited) - {top.0};
  }

  method WalkFolders(ghost rows: seq<Row>, foldersByParent: map<int, seq<Row>>) returns (result: seq<Folder>)
    requires UniqueIds(rows) && Grouped(rows, foldersByParent)
    ensures ListsAll(rows, result)
  {
    hide Good, ListsAll, UniqueIds, Kids, Pushed, Ids;
    var w := Walk([], [(ROOT, "")], {});
    ghost var listed := [];
    WalkStart(rows);
    while |w.parents| > 0
      invariant Good(rows, w, listed, [])
      decreases |Ids(rows) - w.visited|
    {
      var parent := w.parents[|w.parents| - 1];
      PopGood(rows, w, listed);
      PopProgress(rows, w, listed);
      w := w.(parents := w.parents[..|w.parents| - 1], visited := w.visited + {parent.0});
      assert Kids(rows, parent.0) == Children(foldersByParent, parent.0);
      if parent.0 in foldersByParent {
        w, listed := Expand(rows, w, parent, foldersByParent[parent.0], listed);
      }
    }
    WalkDone(rows, w, listed);
    result := w.result;
  }

  lemma CleanFacts(rows: seq<Row>)
    requires UniqueIds(rows)
    ensures UniqueIds(CleanRows(rows))
  {
  }

  /** No name along a path has a slash in it, so NamesBackIff applies to every folder listed. */
  lemma {:induction false} PathsClean(rows: seq<Row>, path: seq<Row>)
    requires IsPath(CleanRows(rows), path)
    ensures NoSlashes(path)
    decreases |path|
  {
    var r := Last(path);
    var i :| 0 <= i < |rows| && CleanRows(rows)[i] == r;
    if |path| > 1 {
      PathsClean(rows, path[..|path| - 1]);
      assert path == path[..|path| - 1] + [r];
    }
  }

  function System(id: int, name: string, attributes: string): Folder {
    Folder(id, "", name, name, attributes, true, false)
  }

  /** INBOX first, then the folders of the user, then the four folders of the system. */
  method FetchFolders(rows: seq<Row>, sent: string, drafts: string, spam: string, trash: string)
    returns (list: seq<Folder>)
    requires UniqueIds(rows)
    ensures |list| >= 5 && list[0] == Folder(0, "", "INBOX", "INBOX", "", true, false)
    ensures ListsAll(CleanRows(rows), list[1..|list| - 4])
    ensures list[|list| - 4..] == [
      Folder(-2, "", sent, sent, "\\Sent", true, false), Folder(-3, "", drafts, drafts, "\\Drafts", true, false),
      Folder(-4, "", spam, spam, "\\Junk", true, false), Folder(-5, "", trash, trash, "\\Trash", true, false)]
  {
    hide ListsAll, UniqueIds, CleanRows;
    CleanFacts(rows);
    var foldersByParent := Group(rows);
    var own := WalkFolders(CleanRows(rows), foldersByParent);
    var result := [System(0, "INBOX", "")] + own;
    list := result + [System(-2, sent, "\\Sent")];
    list := list + [System(-3, drafts, "\\Drafts")];
    list := list + [System(-4, spam, "\\Junk")];
    list := list + [System(-5, trash, "\\Trash")];
    assert list[1..|list| - 4] == own;
  }
}
