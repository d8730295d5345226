/** The filesystem as the programs see it through `stat`, `opendir`/`readdir` and
    `ifstream`: a finite tree whose directories list named entries. */
module FileTree {

  import opened Common
  import opened Words
  import opened CountMaps

  /** `d_type` of a `readdir` entry (which, unlike `stat`, does not follow links). */
  datatype DType = DtReg | DtDir | DtLnk | DtOther

  /** What `stat` reports for a path (it follows symbolic links, so a link never shows
      as a link), and what opening it yields. */
  datatype Node =
    | Regular(text: Option<string>)                 // None: `ifstream::open` fails
    | Directory(readable: bool, entries: seq<Entry>) // readable false: `opendir` fails; entries include "." and ".."
    | Special                                       // neither regular file nor directory
    | Missing                                       // `stat` fails

  datatype Entry = Entry(name: string, dtype: DType, node: Node)

  /** A queued path together with what `stat` reports for it. */
  datatype Item = Item(path: string, node: Node)

  function Total(xs: seq<nat>): nat
  {
    if xs == [] then 0 else Total(xs[..|xs| - 1]) + xs[|xs| - 1]
  }

  /** Number of nodes of the tree below and including `n`. */
  function Size(n: Node): nat
    decreases n
  {
    match n
    case Directory(_, es) => 1 + Total(seq(|es|, i requires 0 <= i < |es| => Size(es[i].node)))
    case _ => 1
  }

  /** The word counts of every regular file reachable from `n` through entries other
      than "." and "..". An unreadable directory contributes nothing. */
  function TreeCounts(n: Node): CountMap
    decreases n
  {
    match n
    case Regular(text) => FileCounts(text)
    case Directory(true, es) =>
      Sum(seq(|es|, i requires 0 <= i < |es| => if IsDotName(es[i].name) then map[] else TreeCounts(es[i].node)))
    case _ => map[]
  }

  /** Some directory reachable from `n` (or `n` itself) cannot be opened. */
  predicate Blocked(n: Node)
    decreases n
  {
    match n
    case Directory(false, _) => true
    case Directory(true, es) => exists i :: 0 <= i < |es| && !IsDotName(es[i].name) && Blocked(es[i].node)
    case _ => false
  }

  /** The work items a directory listing `es` of `path` produces: `path + "/" + name`
      for every entry but "." and "..", in listing order. */
  function Children(path: string, es: seq<Entry>): (q: seq<Item>)
    ensures |q| <= |es|
  {
    if es == [] then []
    else
      var e := es[|es| - 1];
      Children(path, es[..|es| - 1]) + (if IsDotName(e.name) then [] else [Item(JoinPath(path, e.name), e.node)])
  }

  /** The paths of the queued items, in queue order. */
  function Paths(q: seq<Item>): (ps: seq<string>)
    ensures |ps| == |q|
    ensures forall i :: 0 <= i < |q| ==> ps[i] == q[i].path
  {
    if q == [] then [] else Paths(q[..|q| - 1]) + [q[|q| - 1].path]
  }

  lemma PathsAppend(a: seq<Item>, b: seq<Item>)
    ensures Paths(a + b) == Paths(a) + Paths(b)
  {
  }

  function QueueSize(q: seq<Item>): nat
  {
    if q == [] then 0 else QueueSize(q[..|q| - 1]) + Size(q[|q| - 1].node)
  }

  /** Everything the items of `q` still have to contribute. */
  function QueueCounts(q: seq<Item>): CountMap
  {
    if q == [] then map[] else Add(QueueCounts(q[..|q| - 1]), TreeCounts(q[|q| - 1].node))
  }

  predicate QueueBlocked(q: seq<Item>)
  {
    exists i :: 0 <= i < |q| && Blocked(q[i].node)
  }

  /** Children preserves listing order: it distributes over concatenated listings. */
  lemma {:induction false} ChildrenAppend(path: string, a: seq<Entry>, b: seq<Entry>)
    ensures Children(path, a + b) == Children(path, a) + Children(path, b)
    decreases |b|
  {
    if b == [] {
      assert a + b == a;
    } else {
      var n := |b| - 1;
      assert (a + b)[..|a + b| - 1] == a + b[..n];
      ChildrenAppend(path, a, b[..n]);
    }
  }

  lemma ChildrenOne(path: string, e: Entry)
    ensures Children(path, [e]) == if IsDotName(e.name) then [] else [Item(JoinPath(path, e.name), e.node)]
  {
    assert [e][..0] == [];
  }

  lemma {:induction false} QueueSizeAppend(a: seq<Item>, b: seq<Item>)
    ensures QueueSize(a + b) == QueueSize(a) + QueueSize(b)
    decreases |b|
  {
    if b != [] {
      var n := |b| - 1;
      assert (a + b)[..|a + b| - 1] == a + b[..n];
      QueueSizeAppend(a, b[..n]);
    } else {
      assert a + b == a;
    }
  }

  lemma {:induction false} QueueCountsAppend(a: seq<Item>, b: seq<Item>)
    ensures QueueCounts(a + b) == Add(QueueCounts(a), QueueCounts(b))
    decreases |b|
  {
    if b == [] {
      assert a + b == a;
      AddIdentity(QueueCounts(a));
    } else {
      var n := |b| - 1;
      assert (a + b)[..|a + b| - 1] == a + b[..n];
      QueueCountsAppend(a, b[..n]);
      AddAssociative(QueueCounts(a), QueueCounts(b[..n]), TreeCounts(b[n].node));
    }
  }

  lemma {:induction false} QueueBlockedAppend(a: seq<Item>, b: seq<Item>)
    ensures QueueBlocked(a + b) <==> QueueBlocked(a) || QueueBlocked(b)
  {
    if QueueBlocked(a + b) {
      var i :| 0 <= i < |a + b| && Blocked((a + b)[i].node);
      if i < |a| {
        assert a[i] == (a + b)[i];
      } else {
        assert b[i - |a|] == (a + b)[i];
      }
    }
    if QueueBlocked(a) {
      var i :| 0 <= i < |a| && Blocked(a[i].node);
      assert (a + b)[i] == a[i];
    }
    if QueueBlocked(b) {
      var i :| 0 <= i < |b| && Blocked(b[i].node);
      assert (a + b)[|a| + i] == b[i];
    }
  }

  /** The children of a listing stand for no more of the tree than the listing does. */
  lemma {:induction false} ChildrenSize(path: string, es: seq<Entry>)
    ensures QueueSize(Children(path, es)) <= Total(seq(|es|, i requires 0 <= i < |es| => Size(es[i].node)))
    decreases |es|
  {
    if es != [] {
      var n := |es| - 1;
      var e := es[n];
      ChildrenSize(path, es[..n]);
      var single := if IsDotName(e.name) then [] else [Item(JoinPath(path, e.name), e.node)];
      QueueSizeAppend(Children(path, es[..n]), single);
      assert QueueSize(single) <= Size(e.node) by {
        if single != [] {
          assert single[..0] == [];
        }
      }
      var xs := seq(|es|, i requires 0 <= i < |es| => Size(es[i].node));
      assert xs[..n] == seq(n, i requires 0 <= i < n => Size(es[..n][i].node));
    }
  }

  /** What each entry of a readable listing contributes to the directory's counts. */
  function Contributions(es: seq<Entry>): seq<CountMap>
  {
    seq(|es|, i requires 0 <= i < |es| => if IsDotName(es[i].name) then map[] else TreeCounts(es[i].node))
  }

  lemma ContributionsSplit(es: seq<Entry>)
    requires es != []
    ensures Contributions(es) == Contributions(es[..|es| - 1]) + Contributions([es[|es| - 1]])
  {
  }

  lemma ContributionsOne(e: Entry)
    ensures Sum(Contributions([e])) == if IsDotName(e.name) then map[] else TreeCounts(e.node)
  {
    SumSingleton(Contributions([e])[0]);
    assert Contributions([e]) == [Contributions([e])[0]];
  }

  /** Expanding a readable directory into its children keeps what remains to be counted. */
  lemma {:induction false} ChildrenCounts(path: string, es: seq<Entry>)
    ensures QueueCounts(Children(path, es)) == TreeCounts(Directory(true, es))
    decreases |es|
  {
    assert TreeCounts(Directory(true, es)) == Sum(Contributions(es));
    if es != [] {
      var n := |es| - 1;
      var e := es[n];
      ChildrenCounts(path, es[..n]);
      assert TreeCounts(Directory(true, es[..n])) == Sum(Contributions(es[..n]));
      var single := if IsDotName(e.name) then [] else [Item(JoinPath(path, e.name), e.node)];
      QueueCountsAppend(Children(path, es[..n]), single);
      ContributionsSplit(es);
      SumAppend(Contributions(es[..n]), Contributions([e]));
      ContributionsOne(e);
      if single != [] {
        assert single[..0] == [];
        AddIdentity(TreeCounts(e.node));
      }
    }
  }

  /** Expanding a readable directory keeps whether an unreadable directory is still ahead. */
  lemma {:induction false} ChildrenBlocked(path: string, es: seq<Entry>)
    ensures QueueBlocked(Children(path, es)) <==> Blocked(Directory(true, es))
    decreases |es|
  {
    if es != [] {
      var n := |es| - 1;
      var e := es[n];
      ChildrenBlocked(path, es[..n]);
      var single := if IsDotName(e.name) then [] else [Item(JoinPath(path, e.name), e.node)];
      QueueBlockedAppend(Children(path, es[..n]), single);
      if Blocked(Directory(true, es)) {
        var i :| 0 <= i < |es| && !IsDotName(es[i].name) && Blocked(es[i].node);
        if i < n {
          assert es[..n][i] == es[i];
        } else {
          assert single[0].node == e.node;
        }
      }
      if QueueBlocked(Children(path, es[..n])) {
        var i :| 0 <= i < n && !IsDotName(es[..n][i].name) && Blocked(es[..n][i].node);
        assert es[i] == es[..n][i];
      }
      if QueueBlocked(single) {
        assert !IsDotName(es[n].name) && Blocked(es[n].node);
      }
    }
  }
}
