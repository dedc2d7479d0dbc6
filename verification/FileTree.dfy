/**
 The file tree of the library page (frontend/src/components/FileTree.tsx): nodes are objects that
 grow children and counters while the files are added one by one.
 */
module FileTree {
  import opened Basics

  datatype Entry = Entry(relativePath: string, size: int)

  // ---------------------------------------------------------------- paths

  /** `split("/")` */
  function Split(s: string): (segments: seq<string>)
    ensures segments != []
  {
    if s == "" then [""]
    else
      var rest := Split(s[1..]);
      if s[0] == '/' then [""] + rest else [[s[0]] + rest[0]] + rest[1..]
  }

  /** `join("/")` */
  function Join(segments: seq<string>): string {
    if segments == [] then ""
    else if |segments| == 1 then segments[0]
    else segments[0] + "/" + Join(segments[1..])
  }

  function Segments(e: Entry): (segments: seq<string>)
    ensures segments != []
  {
    Split(e.relativePath)
  }

  lemma {:induction false} JoinSplit(s: string)
    ensures Join(Split(s)) == s
  {
    if s != "" {
      var rest := Split(s[1..]);
      JoinSplit(s[1..]);
      if s[0] == '/' {
        assert ([""] + rest)[1..] == rest;
      } else {
        var all := [[s[0]] + rest[0]] + rest[1..];
        assert all[1..] == rest[1..];
      }
    }
  }

  // ---------------------------------------------------------------- what a node should hold

  /** Sum of the sizes of the files whose path starts with the segments `p`. */
  function SizeUnder(files: seq<Entry>, p: seq<string>): int {
    if files == [] then 0
    else SizeUnder(files[..|files| - 1], p) + if p <= Segments(files[|files| - 1]) then files[|files| - 1].size else 0
  }

  function CountUnder(files: seq<Entry>, p: seq<string>): nat {
    if files == [] then 0
    else CountUnder(files[..|files| - 1], p) + if p <= Segments(files[|files| - 1]) then 1 else 0
  }

  /** The last file with exactly these segments. */
  function LastAt(files: seq<Entry>, p: seq<string>): Option<Entry> {
    if files == [] then None
    else if Segments(files[|files| - 1]) == p then Some(files[|files| - 1])
    else LastAt(files[..|files| - 1], p)
  }

  // ---------------------------------------------------------------- the tree

  class TreeNode {
    const name: string
    const path: string
    var file: Option<Entry>
    var children: map<string, TreeNode>
    var sizeBytes: int
    var fileCount: nat

    /** `emptyNode` */
    constructor (name: string, path: string)
      ensures this.name == name && this.path == path
      ensures file == None && children == map[] && sizeBytes == 0 && fileCount == 0
    {
      this.name, this.path := name, path;
      file, children, sizeBytes, fileCount := None, map[], 0, 0;
    }
  }

  type Index = map<seq<string>, TreeNode>

  type Kids = map<seq<string>, map<string, TreeNode>>

  /** The children of every node, by path. */
  ghost function KidsOf(nodes: Index): Kids
    reads nodes.Values`children
  {
    map p | p in nodes :: nodes[p].children
  }

  /** `nodes` is the tree laid out by path: distinct objects, each with exactly the children its path says. */
  ghost predicate Shape(nodes: Index, root: TreeNode)
    reads nodes.Values`children
  {
    [] in nodes && nodes[[]] == root && Distinct(nodes) && Linked(nodes, KidsOf(nodes)) && Closed(nodes, KidsOf(nodes))
  }

  ghost predicate Distinct(nodes: Index) {
    forall p, q :: p in nodes && q in nodes && p != q ==> nodes[p] != nodes[q]
  }

  predicate HasKid(kids: Kids, p: seq<string>, segment: string) {
    p in kids && segment in kids[p]
  }

  /** Every node but the root is the child of the node one segment up. */
  ghost predicate Linked(nodes: Index, kids: Kids) {
    forall p :: p in nodes && p != [] ==>
      HasKid(kids, p[..|p| - 1], p[|p| - 1]) && kids[p[..|p| - 1]][p[|p| - 1]] == nodes[p]
  }

  /** Every child is a node of the tree, one segment down. */
  ghost predicate Closed(nodes: Index, kids: Kids) {
    forall p, segment :: HasKid(kids, p, segment) ==>
      p in nodes && p + [segment] in nodes && nodes[p + [segment]] == kids[p][segment]
  }

  lemma OneMoreChild(nodes: Index, kids: Kids, p: seq<string>, segment: string, child: TreeNode)
    requires Linked(nodes, kids) && Closed(nodes, kids) && p in kids && p in nodes && p + [segment] !in nodes
    ensures var grown, more := nodes[p + [segment] := child],
        kids[p := kids[p][segment := child]][p + [segment] := map[]];
      Linked(grown, more) && Closed(grown, more)
  {
    var next := p + [segment];
    var grown, more := nodes[next := child], kids[p := kids[p][segment := child]][next := map[]];
    assert !HasKid(kids, p, segment);
    hide HasKid;
    forall q, other
      ensures HasKid(more, q, other) <==> (HasKid(kids, q, other) && q != next) || (q == p && other == segment)
      ensures HasKid(more, q, other) ==>
        q in more && other in more[q] && (if q == p && other == segment then more[q][other] == child
                                          else q in kids && other in kids[q] && more[q][other] == kids[q][other])
    {
      KidOfMore(kids, p, segment, child, next, q, other);
    }
    forall q | q in grown && q != []
      ensures HasKid(more, q[..|q| - 1], q[|q| - 1]) && more[q[..|q| - 1]][q[|q| - 1]] == grown[q]
    {
      LastSplit(q, p, segment);
    }
    forall q, other | HasKid(more, q, other)
      ensures q in grown && q + [other] in grown && grown[q + [other]] == more[q][other]
    {
      LastSplit(q + [other], p, segment);
    }
  }

  lemma KidOfMore(kids: Kids, p: seq<string>, segment: string, child: TreeNode, next: seq<string>, q: seq<string>,
                  other: string)
    requires p in kids && next != p
    ensures var more := kids[p := kids[p][segment := child]][next := map[]];
      && (HasKid(more, q, other) <==> (HasKid(kids, q, other) && q != next) || (q == p && other == segment))
      && (HasKid(more, q, other) ==>
          q in more && other in more[q] && (if q == p && other == segment then more[q][other] == child
                                            else q in kids && other in kids[q] && more[q][other] == kids[q][other]))
  {
  }

  lemma LastSplit(q: seq<string>, p: seq<string>, segment: string)
    requires q != []
    ensures q == p + [segment] <==> q[..|q| - 1] == p && q[|q| - 1] == segment
  {
    assert q == q[..|q| - 1] + [q[|q| - 1]];
  }

  ghost predicate Named(nodes: Index) {
    forall p :: p in nodes ==> nodes[p].path == Join(p) && nodes[p].name == if p == [] then "" else p[|p| - 1]
  }

  /** The node holds the totals of the files under its path and the last file exactly there. */
  ghost predicate Holds(node: TreeNode, files: seq<Entry>, p: seq<string>)
    reads node`sizeBytes, node`fileCount, node`file
  {
    node.sizeBytes == SizeUnder(files, p) && node.fileCount == CountUnder(files, p) && node.file == LastAt(files, p)
  }

  /** There is a node for every prefix of a path of the files, and no other but the root. */
  ghost predicate Spans(nodes: Index, files: seq<Entry>) {
    forall p :: p in nodes <==> p == [] || CountUnder(files, p) > 0
  }

  /** The first `depth` levels of the path of `file` have taken it in, the rest of the tree has not. */
  ghost predicate Between(nodes: Index, files: seq<Entry>, file: Entry, depth: nat)
    reads nodes.Values`sizeBytes, nodes.Values`fileCount, nodes.Values`file
  {
    forall p :: p in nodes ==>
      Holds(nodes[p], if p <= Segments(file) && |p| <= depth then files + [file] else files, p)
  }

  ghost predicate SpansBetween(nodes: Index, files: seq<Entry>, file: Entry, depth: nat) {
    forall p :: p in nodes <==> p == [] || CountUnder(files, p) > 0 || (p <= Segments(file) && |p| <= depth)
  }

  lemma OneMoreFile(files: seq<Entry>, file: Entry, p: seq<string>)
    ensures SizeUnder(files + [file], p) == SizeUnder(files, p) + if p <= Segments(file) then file.size else 0
    ensures CountUnder(files + [file], p) == CountUnder(files, p) + if p <= Segments(file) then 1 else 0
    ensures LastAt(files + [file], p) == if Segments(file) == p then Some(file) else LastAt(files, p)
  {
    assert (files + [file])[..|files|] == files;
  }

  lemma {:induction false} NothingUnder(files: seq<Entry>, p: seq<string>)
    requires CountUnder(files, p) == 0
    ensures SizeUnder(files, p) == 0 && LastAt(files, p) == None
  {
    if files != [] {
      NothingUnder(files[..|files| - 1], p);
    }
  }

  method EmptyTree() returns (root: TreeNode, ghost nodes: Index)
    ensures fresh(root) && nodes == map[[] := root]
    ensures Shape(nodes, root) && Named(nodes) && Spans(nodes, []) && Holds(root, [], [])
  {
    root := new TreeNode("", "");
    nodes := map[[] := root];
  }

  /** `buildTree` */
  method BuildTree(files: seq<Entry>) returns (root: TreeNode, ghost nodes: Index)
    ensures fresh(root) && fresh(nodes.Values)
    ensures Shape(nodes, root) && Named(nodes) && Spans(nodes, files)
    ensures forall p :: p in nodes ==> Holds(nodes[p], files, p)
  {
    hide Shape, Named, Spans, Holds;
    root, nodes := EmptyTree();
    for k := 0 to |files|
      invariant fresh(root) && fresh(nodes.Values)
      invariant Shape(nodes, root) && Named(nodes) && Spans(nodes, files[..k])
      invariant forall p :: p in nodes ==> Holds(nodes[p], files[..k], p)
    {
      nodes := AddFile(root, nodes, files[..k], files[k]);
      assert files[..k + 1] == files[..k] + [files[k]];
    }
    assert files[..|files|] == files;
  }

  /** The child of the node at `p` for one more segment, new and empty when there is none. */
  method ChildOf(ghost root: TreeNode, ghost nodes: Index, ghost p: seq<string>, node: TreeNode, segment: string,
                 path: string)
    returns (child: TreeNode, ghost grown: Index)
    requires Shape(nodes, root) && Named(nodes) && p in nodes && node == nodes[p]
    requires path == Join(p + [segment])
    modifies node`children
    ensures Shape(grown, root) && Named(grown)
    ensures p + [segment] in grown && child == grown[p + [segment]]
    ensures p + [segment] in nodes ==> grown == nodes
    ensures p + [segment] !in nodes ==>
              fresh(child) && grown == nodes[p + [segment] := child]
              && Holds(child, [], [])
  {
    hide Join, Linked, Closed, Named;
    ghost var next := p + [segment];
    grown := nodes;
    ChildIff(nodes, root, p, segment);
    if segment in node.children {
      child := node.children[segment];
    } else {
      ghost var kids := KidsOf(nodes);
      child := new TreeNode(segment, path);
      node.children := node.children[segment := child];
      grown := nodes[next := child];
      OneMoreChild(nodes, kids, p, segment, child);
      OneMoreName(nodes, next, child);
      assert KidsOf(grown) == kids[p := kids[p][segment := child]][next := map[]];
    }
  }

  lemma OneMoreName(nodes: Index, next: seq<string>, child: TreeNode)
    requires Distinct(nodes) && Named(nodes) && child !in nodes.Values
    requires next != [] && child.path == Join(next) && child.name == next[|next| - 1]
    ensures Distinct(nodes[next := child]) && Named(nodes[next := child])
  {
  }

  lemma ShapeIsDistinct(nodes: Index, root: TreeNode, p: seq<string>, q: seq<string>)
    requires Shape(nodes, root) && p in nodes && q in nodes && p != q
    ensures nodes[p] != nodes[q]
  {
  }

  lemma ChildIff(nodes: Index, root: TreeNode, p: seq<string>, segment: string)
    requires Shape(nodes, root) && p in nodes
    ensures segment in nodes[p].children <==> p + [segment] in nodes
    ensures segment in nodes[p].children ==> nodes[p].children[segment] == nodes[p + [segment]]
  {
    var next := p + [segment];
    assert next[..|next| - 1] == p && next[|next| - 1] == segment;
    if segment in nodes[p].children {
      assert HasKid(KidsOf(nodes), p, segment);
    }
    if next in nodes {
      assert HasKid(KidsOf(nodes), next[..|next| - 1], next[|next| - 1]);
    }
  }

  method TakeIn(node: TreeNode, file: Entry, isLast: bool, ghost files: seq<Entry>, ghost p: seq<string>)
    requires Holds(node, files, p) && p <= Segments(file) && (isLast <==> p == Segments(file))
    modifies node`sizeBytes, node`fileCount, node`file
    ensures Holds(node, files + [file], p)
  {
    node.sizeBytes := node.sizeBytes + file.size;
    node.fileCount := node.fileCount + 1;
    if isLast {
      node.file := Some(file);
    }
    OneMoreFile(files, file, p);
  }

  /** One level further down the path of the file. */
  method Descend(ghost root: TreeNode, ghost nodes: Index, ghost files: seq<Entry>, file: Entry, node: TreeNode, i: nat)
    returns (child: TreeNode, ghost grown: Index)
    requires i < |Segments(file)|
    requires Shape(nodes, root) && Named(nodes)
    requires Segments(file)[..i] in nodes && node == nodes[Segments(file)[..i]]
    requires SpansBetween(nodes, files, file, i) && Between(nodes, files, file, i)
    modifies nodes.Values
    ensures fresh(grown.Values - nodes.Values)
    ensures Shape(grown, root) && Named(grown)
    ensures Segments(file)[..i + 1] in grown && child == grown[Segments(file)[..i + 1]]
    ensures SpansBetween(grown, files, file, i + 1) && Between(grown, files, file, i + 1)
  {
    hide Segments, SizeUnder, CountUnder, LastAt, Join, Named, Shape;
    var segments := Segments(file);
    ghost var p, next := segments[..i], segments[..i + 1];
    assert next == p + [segments[i]];
    child, grown := ChildOf(root, nodes, p, node, segments[i], Join(segments[..i + 1]));
    GrownIsBetween(nodes, grown, files, file, i);
    Mark(root, grown, child, file, files, i);
  }

  /** A new node stands for a path without files so far. */
  lemma GrownIsBetween(nodes: Index, grown: Index, files: seq<Entry>, file: Entry, i: nat)
    requires i < |Segments(file)| && SpansBetween(nodes, files, file, i) && Between(nodes, files, file, i)
    requires var next := Segments(file)[..i + 1];
      if next in nodes then grown == nodes
      else next in grown && grown == nodes[next := grown[next]] && Holds(grown[next], [], [])
    ensures SpansBetween(grown, files, file, i + 1) && Between(grown, files, file, i)
  {
    hide Segments, SizeUnder, CountUnder, LastAt;
    var segments, next := Segments(file), Segments(file)[..i + 1];
    forall q ensures q <= segments && |q| <= i + 1 <==> (q <= segments && |q| <= i) || q == next {
    }
    if next !in nodes {
      NothingUnder(files, next);
      EmptyHolds(grown[next], files, next);
    }
  }

  lemma EmptyHolds(node: TreeNode, files: seq<Entry>, p: seq<string>)
    requires Holds(node, [], []) && SizeUnder(files, p) == CountUnder(files, p) == 0 && LastAt(files, p) == None
    ensures Holds(node, files, p)
  {
  }

  /** The node at depth `i + 1` of the path takes the file in. */
  method Mark(ghost root: TreeNode, ghost nodes: Index, node: TreeNode, file: Entry, ghost files: seq<Entry>, i: nat)
    requires Shape(nodes, root) && i < |Segments(file)| && Between(nodes, files, file, i)
    requires Segments(file)[..i + 1] in nodes && node == nodes[Segments(file)[..i + 1]]
    modifies node`sizeBytes, node`fileCount, node`file
    ensures Between(nodes, files, file, i + 1)
  {
    hide Shape, Segments, SizeUnder, CountUnder, LastAt, Holds;
    var segments := Segments(file);
    ghost var next := segments[..i + 1];
    TakeIn(node, file, i == |segments| - 1, files, next);
    forall q | q in nodes ensures Holds(nodes[q], if q <= segments && |q| <= i + 1 then files + [file] else files, q) {
      if q != next {
        ShapeIsDistinct(nodes, root, q, next);
      }
    }
  }

  /** The root takes the file in. */
  method MarkRoot(root: TreeNode, ghost nodes: Index, ghost files: seq<Entry>, file: Entry)
    requires Shape(nodes, root) && Spans(nodes, files) && forall p :: p in nodes ==> Holds(nodes[p], files, p)
    modifies root`sizeBytes, root`fileCount, root`file
    ensures SpansBetween(nodes, files, file, 0) && Between(nodes, files, file, 0)
  {
    hide Segments, CountUnder, Holds, Linked, Closed;
    TakeIn(root, file, false, files, []);
  }

  /** With every level of the path done, the file is taken in everywhere. */
  lemma AllTakenIn(nodes: Index, files: seq<Entry>, file: Entry)
    requires SpansBetween(nodes, files, file, |Segments(file)|) && Between(nodes, files, file, |Segments(file)|)
    ensures Spans(nodes, files + [file]) && forall p :: p in nodes ==> Holds(nodes[p], files + [file], p)
  {
    hide Segments, SizeUnder, CountUnder, LastAt;
    forall p ensures CountUnder(files + [file], p) == CountUnder(files, p) + if p <= Segments(file) then 1 else 0 {
      OneMoreFile(files, file, p);
    }
    forall p | p in nodes ensures Holds(nodes[p], files + [file], p) {
      OneMoreFile(files, file, p);
    }
  }

  /** The body of the outer loop: the totals go up along the path of the file, nodes appear where there are none. */
  method AddFile(root: TreeNode, ghost before: Index, ghost files: seq<Entry>, file: Entry) returns (ghost nodes: Index)
    requires Shape(before, root) && Named(before) && Spans(before, files)
    requires forall p :: p in before ==> Holds(before[p], files, p)
    modifies before.Values
    ensures fresh(nodes.Values - before.Values)
    ensures Shape(nodes, root) && Named(nodes) && Spans(nodes, files + [file])
    ensures forall p :: p in nodes ==> Holds(nodes[p], files + [file], p)
  {
    hide Segments, Join, Named, Between, SpansBetween, Spans, Holds, Distinct, Linked, Closed;
    nodes := before;
    var segments := Segments(file);
    var node := root;
    MarkRoot(root, nodes, files, file);
    for i := 0 to |segments|
      invariant fresh(nodes.Values - before.Values)
      invariant Shape(nodes, root) && Named(nodes)
      invariant segments[..i] in nodes && node == nodes[segments[..i]]
      invariant SpansBetween(nodes, files, file, i) && Between(nodes, files, file, i)
    {
      node, nodes := Descend(root, nodes, files, file, node, i);
    }
    AllTakenIn(nodes, files, file);
  }

  // ---------------------------------------------------------------- what the totals add up to

  function Total(files: seq<Entry>): int {
    if files == [] then 0 else Total(files[..|files| - 1]) + files[|files| - 1].size
  }

  /** The sizes of the files that end exactly at `p`. */
  function SizeAt(files: seq<Entry>, p: seq<string>): int {
    if files == [] then 0
    else SizeAt(files[..|files| - 1], p) + if Segments(files[|files| - 1]) == p then files[|files| - 1].size else 0
  }

  /** The totals one segment below `p`, over the listed segments. */
  function SumBelow(files: seq<Entry>, p: seq<string>, order: seq<string>): int {
    if order == [] then 0 else SizeUnder(files, p + [order[0]]) + SumBelow(files, p, order[1..])
  }

  predicate NoRepeats(order: seq<string>) {
    forall i, j :: 0 <= i < j < |order| ==> order[i] != order[j]
  }

  /** The root counts everything. */
  lemma {:induction false} RootIsTotal(files: seq<Entry>)
    ensures SizeUnder(files, []) == Total(files) && CountUnder(files, []) == |files|
  {
    if files != [] {
      RootIsTotal(files[..|files| - 1]);
    }
  }

  /** Whichever of several files at the same path came last is the one the node shows. */
  lemma {:induction false} LastAtIsLast(files: seq<Entry>, p: seq<string>)
    ensures LastAt(files, p).None? <==> forall k :: 0 <= k < |files| ==> Segments(files[k]) != p
    ensures LastAt(files, p).Some? ==> exists k ::
              0 <= k < |files| && files[k] == LastAt(files, p).value && Segments(files[k]) == p
              && forall j :: k < j < |files| ==> Segments(files[j]) != p
  {
    hide Segments;
    if files != [] {
      var n := |files| - 1;
      LastAtIsLast(files[..n], p);
      if Segments(files[n]) != p && LastAt(files[..n], p).Some? {
        var k :| 0 <= k < n && files[..n][k] == LastAt(files[..n], p).value && Segments(files[..n][k]) == p
                 && forall j :: k < j < n ==> Segments(files[..n][j]) != p;
        assert files[k] == files[..n][k];
        forall j | k < j < |files| ensures Segments(files[j]) != p {
          assert j == n || files[j] == files[..n][j];
        }
      } else if LastAt(files, p).None? {
        forall k | 0 <= k < |files| ensures Segments(files[k]) != p {
          assert k == n || files[k] == files[..n][k];
        }
      }
    }
  }

  /** One more file is below `p` in exactly one place, if it is below `p` at all. */
  lemma {:induction false} SumBelowOneMore(files: seq<Entry>, file: Entry, p: seq<string>, order: seq<string>)
    requires NoRepeats(order)
    ensures SumBelow(files + [file], p, order) == SumBelow(files, p, order) +
            if p < Segments(file) && Segments(file)[|p|] in order then file.size else 0
    decreases |order|
  {
    hide Segments, SizeUnder;
    if order != [] {
      OneMoreFile(files, file, p + [order[0]]);
      BelowIff(p, order[0], Segments(file));
      SumBelowOneMore(files, file, p, order[1..]);
      forall segment ensures segment in order <==> segment == order[0] || segment in order[1..] {
        assert order == [order[0]] + order[1..];
      }
      assert order[0] !in order[1..];
    }
  }

  lemma BelowIff(p: seq<string>, segment: string, path: seq<string>)
    ensures p + [segment] <= path <==> p < path && path[|p|] == segment
  {
    if p < path && path[|p|] == segment {
      assert path[..|p| + 1] == p + [segment];
    }
    if p + [segment] <= path {
      assert path[|p|] == (p + [segment])[|p|] && path[..|p|] == (p + [segment])[..|p|];
    }
  }

  /** What is under `p` is what is under its children and the files that end there. */
  lemma {:induction false} UnderIsBelowPlusOwn(files: seq<Entry>, p: seq<string>, order: seq<string>)
    requires NoRepeats(order)
    requires forall k :: 0 <= k < |files| && p < Segments(files[k]) ==> Segments(files[k])[|p|] in order
    ensures SizeUnder(files, p) == SizeAt(files, p) + SumBelow(files, p, order)
  {
    hide Segments;
    if files == [] {
      NothingBelow(p, order);
    } else {
      var n := |files| - 1;
      var before := files[..n];
      assert files == before + [files[n]];
      UnderIsBelowPlusOwn(before, p, order);
      SumBelowOneMore(before, files[n], p, order);
    }
  }

  lemma {:induction false} NothingBelow(p: seq<string>, order: seq<string>)
    ensures SumBelow([], p, order) == 0
  {
    if order != [] {
      NothingBelow(p, order[1..]);
    }
  }

  /** The same files, each counted as one. */
  function Ones(files: seq<Entry>): (ones: seq<Entry>)
    ensures |ones| == |files| && forall k :: 0 <= k < |files| ==> ones[k] == files[k].(size := 1)
  {
    if files == [] then [] else Ones(files[..|files| - 1]) + [files[|files| - 1].(size := 1)]
  }

  lemma {:induction false} CountIsSizeOfOnes(files: seq<Entry>, p: seq<string>)
    ensures CountUnder(files, p) == SizeUnder(Ones(files), p)
  {
    if files != [] {
      var n := |files| - 1;
      CountIsSizeOfOnes(files[..n], p);
      assert Ones(files)[..n] == Ones(files[..n]);
    }
  }

  function SizesOf(nodes: Index, p: seq<string>, order: seq<string>): int
    requires forall k :: 0 <= k < |order| ==> p + [order[k]] in nodes
    reads nodes.Values`sizeBytes
  {
    if order == [] then 0 else nodes[p + [order[0]]].sizeBytes + SizesOf(nodes, p, order[1..])
  }

  function CountsOf(nodes: Index, p: seq<string>, order: seq<string>): int
    requires forall k :: 0 <= k < |order| ==> p + [order[k]] in nodes
    reads nodes.Values`fileCount
  {
    if order == [] then 0 else nodes[p + [order[0]]].fileCount + CountsOf(nodes, p, order[1..])
  }

  lemma {:induction false} ChildrenHoldSums(nodes: Index, files: seq<Entry>, p: seq<string>, order: seq<string>)
    requires forall k :: 0 <= k < |order| ==> p + [order[k]] in nodes
    requires forall q :: q in nodes ==> Holds(nodes[q], files, q)
    ensures SizesOf(nodes, p, order) == SumBelow(files, p, order)
    ensures CountsOf(nodes, p, order) == SumBelow(Ones(files), p, order)
  {
    hide SizeUnder, CountUnder;
    if order != [] {
      var q := p + [order[0]];
      assert Holds(nodes[q], files, q);
      CountIsSizeOfOnes(files, q);
      ChildrenHoldSums(nodes, files, p, order[1..]);
    }
  }

  lemma {:induction false} CountedBy(files: seq<Entry>, p: seq<string>, k: nat)
    requires k < |files| && p <= Segments(files[k])
    ensures CountUnder(files, p) > 0
  {
    if k < |files| - 1 {
      CountedBy(files[..|files| - 1], p, k);
    }
  }

  /** In the finished tree every node is its children and the files that end at it; the root is everything. */
  lemma NodeIsChildrenPlusOwn(root: TreeNode, nodes: Index, files: seq<Entry>, p: seq<string>, order: seq<string>)
    requires Shape(nodes, root) && Spans(nodes, files) && forall q :: q in nodes ==> Holds(nodes[q], files, q)
    requires p in nodes && NoRepeats(order) && forall segment :: segment in order <==> segment in nodes[p].children
    ensures forall k :: 0 <= k < |order| ==>
              p + [order[k]] in nodes && nodes[p + [order[k]]] == nodes[p].children[order[k]]
    ensures nodes[p].sizeBytes == SizeAt(files, p) + SizesOf(nodes, p, order)
    ensures nodes[p].fileCount == SizeAt(Ones(files), p) + CountsOf(nodes, p, order)
    ensures root.sizeBytes == Total(files) && root.fileCount == |files|
  {
    forall k | 0 <= k < |order|
      ensures p + [order[k]] in nodes && nodes[p + [order[k]]] == nodes[p].children[order[k]]
    {
      assert order[k] in order;
      ChildIff(nodes, root, p, order[k]);
    }
    forall k | 0 <= k < |files| && p < Segments(files[k]) ensures Segments(files[k])[|p|] in order {
      var segment := Segments(files[k])[|p|];
      BelowIff(p, segment, Segments(files[k]));
      CountedBy(files, p + [segment], k);
      ChildIff(nodes, root, p, segment);
    }
    hide Spans, Segments, SizeUnder, CountUnder;
    assert Holds(nodes[p], files, p) && Holds(nodes[[]], files, []);
    UnderIsBelowPlusOwn(files, p, order);
    forall k | 0 <= k < |files| ensures Segments(Ones(files)[k]) == Segments(files[k]) {
      SameSegments(files[k]);
    }
    UnderIsBelowPlusOwn(Ones(files), p, order);
    CountIsSizeOfOnes(files, p);
    ChildrenHoldSums(nodes, files, p, order);
    RootIsTotal(files);
  }

  lemma SameSegments(e: Entry)
    ensures Segments(e.(size := 1)) == Segments(e)
  {
  }

  /** Every file has a node, under its own path, that shows the last file of that path. */
  lemma EveryFileHasItsNode(root: TreeNode, nodes: Index, files: seq<Entry>, k: nat)
    requires Shape(nodes, root) && Named(nodes) && Spans(nodes, files)
    requires forall q :: q in nodes ==> Holds(nodes[q], files, q)
    requires k < |files|
    ensures var p := Segments(files[k]);
      p in nodes && nodes[p].path == files[k].relativePath && nodes[p].file.Some?
      && Segments(nodes[p].file.value) == p && root.file == None
  {
    var p := Segments(files[k]);
    CountedBy(files, p, k);
    JoinSplit(files[k].relativePath);
    LastAtIsLast(files, p);
    LastAtIsLast(files, []);
    assert Holds(nodes[p], files, p) && Holds(nodes[[]], files, []);
  }
}
